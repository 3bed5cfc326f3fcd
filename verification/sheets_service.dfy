/** Reading the roster from a published spreadsheet
    (src/services/GoogleSheetsService.ts): the query URL, unwrapping of the
    Gviz JSONP-style response, date normalisation of header cells, and the
    mapping of table rows to operators with their schedules. Network
    access, `JSON.parse` and the JavaScript `Date` conversions are
    parameters. */
module GoogleSheets {
  import opened Text
  import opened Models

  /** A property of a parsed JSON object: absent, null, or a value. */
  datatype Field<+T> = Undefined | Null | Present(value: T)

  /** A cell's raw value `v`; numbers are only rendered, so integers stand
      for them. */
  datatype CellValue = VStr(s: string) | VNum(n: int)

  /** A cell with raw value `v` and formatted text `f`. */
  datatype Cell = Cell(v: Field<CellValue>, f: Field<string>)

  /** A row; its `c` array may be absent and its cells may be null. */
  datatype Row = Row(c: Option<seq<Option<Cell>>>)

  datatype GvizTable = GvizTable(rows: Option<seq<Row>>)

  datatype GvizResponse = GvizResponse(table: Option<GvizTable>)

  /** The sheet layout settings (1-based row and column numbers). */
  datatype SheetsConfig = SheetsConfig(
    spreadsheetUrl: string,
    dateRowIndex: int,
    nameColumnIndex: int,
    dataStartRowIndex: int,
    dataStartColIndex: int,
    contactsUrl: string,
    contactsStartRow: int,
    contactNameCol: int,
    contactEmailCol: int,
    contactPhoneCol: int)

  datatype Result<+T> = Ok(value: T) | Err(message: string)

  /** JavaScript truthiness of a raw value: '' and 0 are falsy. */
  predicate Truthy(v: CellValue) {
    match v
    case VStr(s) => s != ""
    case VNum(n) => n != 0
  }

  /** `String(v)`. */
  function ValueText(v: CellValue): string {
    match v
    case VStr(s) => s
    case VNum(n) => IntToString(n)
  }

  /** `r.c?.[idx]`: no cell for a missing array, an out-of-range index or a null cell. */
  function CellAt(row: Row, idx: int): Option<Cell> {
    if row.c.Some? && 0 <= idx < |row.c.value| then row.c.value[idx] else None
  }

  // ---------------------------------------------------------------- URL

  const GvizPrefix: string := "https://docs.google.com/spreadsheets/d/"
  const GvizQuery: string := "/gviz/tq?tqx=out:json&headers=0&gid="

  /** `getGvizUrl`: '' for an empty or blank URL. Otherwise the Gviz query
      URL when a spreadsheet id (the `/d/<id>` part, extracted by the
      caller) is known, else the URL itself; then the range, if non-empty,
      and the cache-busting time stamp `now`. */
  function GvizUrl(url: string, range: Option<string>, sheetId: Option<string>, gid: Option<string>, now: nat): (r: string)
    ensures r == "" <==> Trim(url) == ""
    ensures r != "" && sheetId.None? ==> StartsWith(r, url)
    ensures r != "" && sheetId.Some? ==> StartsWith(r, GvizPrefix + sheetId.value + GvizQuery)
  {
    if url == "" || Trim(url) == "" then ""
    else
      var stamp := (if range.Some? && range.value != "" then "&range=" + range.value else "") + "&t=" + NatToString(now);
      if sheetId.Some? then
        var head := GvizPrefix + sheetId.value + GvizQuery;
        var r := head + ((if gid.Some? then gid.value else "0") + stamp);
        StartsWithConcat(head, (if gid.Some? then gid.value else "0") + stamp);
        r
      else
        StartsWithConcat(url, stamp);
        url + stamp
  }

  // ----------------------------------------------------- Gviz response

  /** `String.prototype.substring(a, b)`: both bounds clamped to the
      string, and swapped when the first exceeds the second. */
  function JsSubstring(s: string, a: int, b: int): (r: string)
    ensures |r| <= |s|
  {
    var lo := if a < 0 then 0 else if a > |s| then |s| else a;
    var hi := if b < 0 then 0 else if b > |s| then |s| else b;
    if lo <= hi then s[lo..hi] else s[hi..lo]
  }

  /** The text handed to `JSON.parse`: from the first '{' to the last '}',
      or nothing for an empty text or a missing brace. */
  function GvizPayload(text: string): (r: Option<string>)
    ensures text == "" || '{' !in text || '}' !in text ==> r.None?
  {
    if text == "" then None else Braced(text, IndexOf(text, '{'), LastIndexOf(text, '}'))
  }

  /** The text between the brace positions `start` and `end`, -1 standing
      for a missing brace. */
  function Braced(text: string, start: int, end: int): Option<string> {
    if start == -1 || end == -1 then None else Some(JsSubstring(text, start, end + 1))
  }

  /** `parseGvizResponse`, with `JSON.parse` as `parse` (None when it throws). */
  function ParseGvizResponse<T>(text: string, parse: string -> Option<T>): (r: Option<T>)
    ensures text == "" || '{' !in text || '}' !in text ==> r.None?
  {
    var payload := GvizPayload(text);
    if payload.None? then None else parse(payload.value)
  }

  /** Unwrapping a wrapped body: when the wrapper's head has no '{' and its
      tail no '}', the payload is exactly the braced body. */
  lemma GvizPayloadUnwraps(head: string, body: string, tail: string)
    requires '{' !in head && '}' !in tail
    requires |body| >= 2 && body[0] == '{' && body[|body| - 1] == '}'
    ensures GvizPayload(head + body + tail) == Some(body)
  {
    var text := head + body + tail;
    var start := |head|;
    var end := |head| + |body| - 1;
    forall k | 0 <= k < start ensures text[k] != '{' {
      assert text[k] == head[k];
    }
    forall k | end < k < |text| ensures text[k] != '}' {
      assert text[k] == tail[k - |head| - |body|];
    }
    IndexOfAt(text, '{', start);
    LastIndexOfAt(text, '}', end);
    assert text[start..end + 1] == body;
  }

  /** A response that wraps a braced body in a head without '{' and a tail
      without '}' parses as that body. */
  lemma ParseGvizResponseUnwraps<T>(head: string, body: string, tail: string, parse: string -> Option<T>)
    requires '{' !in head && '}' !in tail
    requires |body| >= 2 && body[0] == '{' && body[|body| - 1] == '}'
    ensures ParseGvizResponse(head + body + tail, parse) == parse(body)
  {
    GvizPayloadUnwraps(head, body, tail);
  }

  /** When the text has a '{' before its last '}', a payload is found; it
      starts at the first '{' and ends at the last '}'. */
  lemma GvizPayloadBounds(text: string)
    requires '{' in text && '}' in text
    requires IndexOf(text, '{') < LastIndexOf(text, '}')
    ensures GvizPayload(text) == Some(text[IndexOf(text, '{')..LastIndexOf(text, '}') + 1])
    ensures var p := GvizPayload(text).value;
      |p| >= 2 && p[0] == '{' && p[|p| - 1] == '}'
  {
    var start := IndexOf(text, '{');
    var end := LastIndexOf(text, '}');
    assert 0 <= start < end < |text|;
    var p := text[start..end + 1];
    assert GvizPayload(text) == Some(p);
    assert p[0] == text[start] == '{';
    assert p[|p| - 1] == text[end] == '}';
  }

  // -------------------------------------------------------------- dates

  /** The formatted text matches `^\d{1,2}/\d{1,2}/\d{4}$`. */
  predicate IsDmy(s: string) {
    var p := Split(s, '/');
    && |p| == 3
    && 1 <= |p[0]| <= 2 && AllDigits(p[0])
    && 1 <= |p[1]| <= 2 && AllDigits(p[1])
    && |p[2]| == 4 && AllDigits(p[2])
  }

  /** `${year}-${month.padStart(2,'0')}-${day.padStart(2,'0')}`. */
  function DmyToIso(s: string): (r: string)
    requires IsDmy(s)
  {
    var p := Split(s, '/');
    p[2] + "-" + PadStart2(p[1]) + "-" + PadStart2(p[0])
  }

  /** An ISO calendar date shape: YYYY-MM-DD with digits. */
  predicate IsIsoShape(r: string) {
    && |r| == 10 && r[4] == '-' && r[7] == '-'
    && forall k :: 0 <= k < 10 && k != 4 && k != 7 ==> IsDigit(r[k])
  }

  lemma PadStart2Digits(s: string)
    requires 1 <= |s| <= 2 && AllDigits(s)
    ensures |PadStart2(s)| == 2 && AllDigits(PadStart2(s))
  {
  }

  /** Every converted date has the ISO shape. */
  lemma DmyToIsoShape(s: string)
    requires IsDmy(s)
    ensures IsIsoShape(DmyToIso(s))
  {
    var p := Split(s, '/');
    PadStart2Digits(p[1]);
    PadStart2Digits(p[0]);
    var r := DmyToIso(s);
    assert r == p[2] + "-" + PadStart2(p[1]) + "-" + PadStart2(p[0]);
    forall k | 0 <= k < 10 && k != 4 && k != 7 ensures IsDigit(r[k]) {
      if k < 4 { assert r[k] == p[2][k]; }
      else if k < 7 { assert r[k] == PadStart2(p[1])[k - 5]; }
      else { assert r[k] == PadStart2(p[0])[k - 8]; }
    }
  }

  /** Writing a day, month and year with slashes and converting gives the
      year, the zero-padded month and the zero-padded day. */
  lemma DmyRoundTrip(day: string, month: string, year: string)
    requires 1 <= |day| <= 2 && AllDigits(day)
    requires 1 <= |month| <= 2 && AllDigits(month)
    requires |year| == 4 && AllDigits(year)
    ensures IsDmy(day + "/" + month + "/" + year)
    ensures DmyToIso(day + "/" + month + "/" + year) == year + "-" + PadStart2(month) + "-" + PadStart2(day)
  {
    var s := day + "/" + month + "/" + year;
    assert '/' !in day by { assert forall k :: 0 <= k < |day| ==> IsDigit(day[k]); }
    assert '/' !in month by { assert forall k :: 0 <= k < |month| ==> IsDigit(month[k]); }
    assert '/' !in year by { assert forall k :: 0 <= k < |year| ==> IsDigit(year[k]); }
    assert s == day + ['/'] + (month + ['/'] + year);
    SplitCons(day, '/', month + ['/'] + year);
    SplitCons(month, '/', year);
    SplitNone(year, '/');
    assert Split(s, '/') == [day, month, year];
  }

  /** `parseAnyDate`. `jsDate` stands for the `Date(y,m,d)` and
      spreadsheet-serial branches, which go through the JavaScript `Date`
      type: it gives the formatted date when one of them applies. Otherwise
      a formatted text of the form D/M/YYYY (after trimming) is converted;
      anything else yields nothing. */
  function ParseAnyDate(cell: Option<Cell>, jsDate: CellValue -> Option<string>): (r: Option<string>)
    ensures cell.None? || !cell.value.v.Present? ==> r.None?
    ensures r.Some? && jsDate(cell.value.v.value).None? ==> IsIsoShape(r.value)
    ensures r.Some? && jsDate(cell.value.v.value).None? ==>
      cell.value.f.Present? && IsDmy(Trim(cell.value.f.value)) && r.value == DmyToIso(Trim(cell.value.f.value))
  {
    if cell.None? || !cell.value.v.Present? then None
    else
      var val := cell.value.v.value;
      var viaDate := jsDate(val);
      if viaDate.Some? then viaDate
      else
        var f := if cell.value.f.Present? && cell.value.f.value != "" then Trim(cell.value.f.value) else "";
        if f != "" && IsDmy(f) then DmyToIsoShape(f); Some(DmyToIso(f)) else None
  }

  /** A cell whose formatted text is D/M/YYYY, padded with blanks or not,
      and that the `Date` branches leave alone, gives YYYY-MM-DD. */
  lemma ParseAnyDateDmy(
    v: CellValue, pre: string, day: string, month: string, year: string, post: string,
    jsDate: CellValue -> Option<string>)
    requires forall k :: 0 <= k < |pre| ==> IsSpace(pre[k])
    requires forall k :: 0 <= k < |post| ==> IsSpace(post[k])
    requires 1 <= |day| <= 2 && AllDigits(day)
    requires 1 <= |month| <= 2 && AllDigits(month)
    requires |year| == 4 && AllDigits(year)
    requires jsDate(v).None?
    ensures ParseAnyDate(Some(Cell(Present(v), Present(pre + (day + "/" + month + "/" + year) + post))), jsDate)
         == Some(year + "-" + PadStart2(month) + "-" + PadStart2(day))
  {
    var s := day + "/" + month + "/" + year;
    DmyRoundTrip(day, month, year);
    assert !IsSpace(s[0]) by { assert s[0] == day[0]; }
    assert !IsSpace(s[|s| - 1]) by { assert s[|s| - 1] == year[3]; }
    TrimPadded(pre, s, post);
    ParseAnyDateFormatted(v, pre + s + post, jsDate);
  }

  /** The formatted branch of `parseAnyDate`, for any text that trims to
      D/M/YYYY. */
  lemma ParseAnyDateFormatted(v: CellValue, f: string, jsDate: CellValue -> Option<string>)
    requires jsDate(v).None?
    requires f != "" && IsDmy(Trim(f))
    ensures ParseAnyDate(Some(Cell(Present(v), Present(f))), jsDate) == Some(DmyToIso(Trim(f)))
  {
    assert Trim(f) != "" by { assert |Split(Trim(f), '/')| == 3; }
  }

  // ------------------------------------------------- column -> date map

  /** The write of header cell `i`: cells before column `dataStartColIndex`
      write nothing; a cell whose date parses to a non-empty string maps
      its index to that date. */
  function ColumnDateWrite(cell: Option<Cell>, i: nat, dataStartColIndex: int, jsDate: CellValue -> Option<string>)
    : Option<(nat, string)>
  {
    if i < dataStartColIndex - 1 then None
    else
      var d := ParseAnyDate(cell, jsDate);
      if d.Some? && d.value != "" then Some((i, d.value)) else None
  }

  /** Step 1 of `fetchOperators` over the first `n` cells of the date row. */
  function ColumnDates(cells: seq<Option<Cell>>, dataStartColIndex: int, jsDate: CellValue -> Option<string>, n: nat)
    : map<nat, string>
    requires n <= |cells|
  {
    ApplyWrites(ColumnDateWrites(cells, dataStartColIndex, jsDate, n))
  }

  function ColumnDateWrites(cells: seq<Option<Cell>>, dataStartColIndex: int, jsDate: CellValue -> Option<string>, n: nat)
    : seq<Option<(nat, string)>>
    requires n <= |cells|
  {
    seq(n, i requires 0 <= i < n => ColumnDateWrite(cells[i], i, dataStartColIndex, jsDate))
  }

  /** A column is mapped exactly when it is at or after the first data
      column and its header parses to a date; it maps to that date. */
  lemma ColumnDatesSpec(
    cells: seq<Option<Cell>>, dataStartColIndex: int, jsDate: CellValue -> Option<string>, n: nat, i: nat)
    requires n <= |cells|
    ensures i in ColumnDates(cells, dataStartColIndex, jsDate, n) <==>
      && i < n && i >= dataStartColIndex - 1
      && ParseAnyDate(cells[i], jsDate).Some? && ParseAnyDate(cells[i], jsDate).value != ""
    ensures i in ColumnDates(cells, dataStartColIndex, jsDate, n) ==>
      Some(ColumnDates(cells, dataStartColIndex, jsDate, n)[i]) == ParseAnyDate(cells[i], jsDate)
  {
    var ws := ColumnDateWrites(cells, dataStartColIndex, jsDate, n);
    if i in ApplyWrites(ws) {
      var w := ApplyWritesLast(ws, i);
      assert ws[w] == ColumnDateWrite(cells[w], w, dataStartColIndex, jsDate);
    }
    if i < n {
      assert ws[i] == ColumnDateWrite(cells[i], i, dataStartColIndex, jsDate);
      if ws[i].Some? {
        ApplyWritesHasKey(ws, i);
      }
    }
  }

  /** Every mapped column index is below `n`. */
  lemma {:induction false} ColumnDatesBelow(
    cells: seq<Option<Cell>>, dataStartColIndex: int, jsDate: CellValue -> Option<string>, n: nat)
    requires n <= |cells|
    ensures forall i :: i in ColumnDates(cells, dataStartColIndex, jsDate, n) ==> i < n
  {
    forall i | i in ColumnDates(cells, dataStartColIndex, jsDate, n) ensures i < n {
      ColumnDatesSpec(cells, dataStartColIndex, jsDate, n, i);
    }
  }

  /** The date map from the first row of the dates response, if any. */
  function DateMap(dates: Option<GvizResponse>, dataStartColIndex: int, jsDate: CellValue -> Option<string>)
    : (r: (map<nat, string>, nat))
    ensures forall i :: i in r.0 ==> i < r.1
  {
    if dates.Some? && dates.value.table.Some? && dates.value.table.value.rows.Some?
      && |dates.value.table.value.rows.value| > 0 && dates.value.table.value.rows.value[0].c.Some?
    then
      var cells := dates.value.table.value.rows.value[0].c.value;
      ColumnDatesBelow(cells, dataStartColIndex, jsDate, |cells|);
      (ColumnDates(cells, dataStartColIndex, jsDate, |cells|), |cells|)
    else (map[], 0)
  }

  // ------------------------------------------------------------ schedule

  /** `cell.v !== undefined || cell.f !== undefined`: null counts as set. */
  predicate HasContent(cell: Cell) {
    !cell.v.Undefined? || !cell.f.Undefined?
  }

  /** The raw text of a schedule cell: `cell.f || cell.v || ''`. */
  function RawShiftText(cell: Cell): string {
    if cell.f.Present? && cell.f.value != "" then cell.f.value
    else if cell.v.Present? && Truthy(cell.v.value) then ValueText(cell.v.value)
    else ""
  }

  /** `String(cell.f || cell.v || '').toUpperCase().trim()`. */
  function ShiftText(cell: Cell): ShiftCode {
    Trim(ToUpper(RawShiftText(cell)))
  }

  /** A shift text has no lower-case letter and no blank at either end. */
  lemma ShiftTextClean(cell: Cell)
    ensures forall k :: 0 <= k < |ShiftText(cell)| ==> !IsLowerAscii(ShiftText(cell)[k])
    ensures |ShiftText(cell)| > 0 ==> !IsSpace(ShiftText(cell)[0]) && !IsSpace(ShiftText(cell)[|ShiftText(cell)| - 1])
  {
    TrimKeepsNoLower(ToUpper(RawShiftText(cell)));
  }

  /** A sequence of map writes applied in order: a later write to the same
      key wins; `None` writes nothing. */
  function ApplyWrites<K, V>(ws: seq<Option<(K, V)>>): map<K, V> {
    if |ws| == 0 then map[]
    else
      var m := ApplyWrites(ws[..|ws| - 1]);
      var w := ws[|ws| - 1];
      if w.Some? then m[w.value.0 := w.value.1] else m
  }

  /** Every written key is in the map. */
  lemma {:induction false} ApplyWritesHasKey<K, V>(ws: seq<Option<(K, V)>>, i: nat)
    requires i < |ws| && ws[i].Some?
    ensures ws[i].value.0 in ApplyWrites(ws)
    decreases |ws|
  {
    var init := ws[..|ws| - 1];
    if i < |ws| - 1 {
      assert init[i] == ws[i];
      ApplyWritesHasKey(init, i);
    }
  }

  /** Every key in the map holds the value of the last write to it. */
  lemma {:induction false} ApplyWritesLast<K, V>(ws: seq<Option<(K, V)>>, key: K) returns (i: nat)
    requires key in ApplyWrites(ws)
    ensures i < |ws| && ws[i].Some? && ws[i].value.0 == key
    ensures ApplyWrites(ws)[key] == ws[i].value.1
    ensures forall j :: i < j < |ws| && ws[j].Some? ==> ws[j].value.0 != key
    decreases |ws|
  {
    var init := ws[..|ws| - 1];
    var w := ws[|ws| - 1];
    if w.Some? && w.value.0 == key {
      i := |ws| - 1;
    } else {
      assert key in ApplyWrites(init);
      i := ApplyWritesLast(init, key);
      assert forall j :: i < j < |init| ==> init[j] == ws[j];
    }
  }

  /** The write of column `i`: a mapped column whose cell has content writes
      its shift text under the column's date. */
  function ColumnWrite(row: Row, cols: map<nat, string>, i: nat): Option<(string, ShiftCode)> {
    var cell := CellAt(row, i);
    if i in cols && cell.Some? && HasContent(cell.value) then Some((cols[i], ShiftText(cell.value))) else None
  }

  /** One operator's schedule from their row: the writes of the columns
      below `n`, in ascending order, so a later column with the same date
      wins. */
  function RowSchedule(row: Row, cols: map<nat, string>, n: nat): Schedule {
    ApplyWrites(ColumnWrites(row, cols, n))
  }

  function ColumnWrites(row: Row, cols: map<nat, string>, n: nat): seq<Option<(string, ShiftCode)>> {
    seq(n, i requires 0 <= i < n => ColumnWrite(row, cols, i))
  }

  /** The column that wrote date `d`: mapped to `d`, with content, and no
      later column below `n` does. */
  ghost predicate LastWriter(row: Row, cols: map<nat, string>, n: nat, d: string, i: nat) {
    && i < n && i in cols && cols[i] == d
    && CellAt(row, i).Some? && HasContent(CellAt(row, i).value)
    && forall j :: i < j < n && j in cols && cols[j] == d ==> !(CellAt(row, j).Some? && HasContent(CellAt(row, j).value))
  }

  /** A mapped column with content puts its date in the schedule. */
  lemma RowScheduleHasDate(row: Row, cols: map<nat, string>, n: nat, i: nat)
    requires i < n && i in cols && CellAt(row, i).Some? && HasContent(CellAt(row, i).value)
    ensures cols[i] in RowSchedule(row, cols, n)
  {
    var ws := ColumnWrites(row, cols, n);
    assert ws[i] == ColumnWrite(row, cols, i);
    ApplyWritesHasKey(ws, i);
  }

  /** Every date in the schedule was written by a mapped column with
      content, and holds the shift text of the last such column. */
  lemma RowScheduleWriter(row: Row, cols: map<nat, string>, n: nat, d: string) returns (i: nat)
    requires d in RowSchedule(row, cols, n)
    ensures LastWriter(row, cols, n, d, i)
    ensures RowSchedule(row, cols, n)[d] == ShiftText(CellAt(row, i).value)
  {
    var ws := ColumnWrites(row, cols, n);
    i := ApplyWritesLast(ws, d);
    assert ws[i] == ColumnWrite(row, cols, i);
    forall j | i < j < n && j in cols && cols[j] == d
      ensures !(CellAt(row, j).Some? && HasContent(CellAt(row, j).value))
    {
      assert ws[j] == ColumnWrite(row, cols, j);
    }
  }

  /** Shift texts in a schedule are upper-case and trimmed. */
  lemma RowScheduleClean(row: Row, cols: map<nat, string>, n: nat, d: string)
    requires d in RowSchedule(row, cols, n)
    ensures forall k :: 0 <= k < |RowSchedule(row, cols, n)[d]| ==> !IsLowerAscii(RowSchedule(row, cols, n)[d][k])
    ensures |RowSchedule(row, cols, n)[d]| > 0 ==>
      !IsSpace(RowSchedule(row, cols, n)[d][0]) && !IsSpace(RowSchedule(row, cols, n)[d][|RowSchedule(row, cols, n)[d]| - 1])
  {
    var i := RowScheduleWriter(row, cols, n, d);
    ShiftTextClean(CellAt(row, i).value);
  }

  // ------------------------------------------------------------ contacts

  datatype Contact = Contact(email: string, phone: string)

  /** `String(r.c?.[idx]?.v || '').trim()`. */
  function ValueAt(row: Row, idx: int): string {
    var cell := CellAt(row, idx);
    if cell.Some? && cell.value.v.Present? && Truthy(cell.value.v.value) then Trim(ValueText(cell.value.v.value)) else ""
  }

  /** First contacts row (0-based): `(contactsStartRow || 1) - 1`. */
  function ContactsFirstRow(config: SheetsConfig): int {
    (if config.contactsStartRow != 0 then config.contactsStartRow else 1) - 1
  }

  /** The key a contacts row registers under: its trimmed name cell,
      upper-cased. */
  function ContactName(row: Row, config: SheetsConfig): string {
    ToUpper(ValueAt(row, config.contactNameCol - 1))
  }

  /** The write of contact row `i`: rows before the first contacts row
      write nothing; a row with a non-blank name registers e-mail and phone
      under the upper-cased trimmed name. */
  function ContactWrite(row: Row, i: nat, config: SheetsConfig): Option<(string, Contact)> {
    if i < ContactsFirstRow(config) then None
    else
      var name := ContactName(row, config);
      if name == "" then None
      else Some((name, ContactOf(row, config)))
  }

  /** The e-mail and phone cells of a contacts row. */
  function ContactOf(row: Row, config: SheetsConfig): Contact {
    Contact(ValueAt(row, config.contactEmailCol - 1), ValueAt(row, config.contactPhoneCol - 1))
  }

  /** Step 2 of `fetchOperators` over the first `n` contact rows; a later
      row with the same name overwrites. */
  function Contacts(rows: seq<Row>, config: SheetsConfig, n: nat): map<string, Contact>
    requires n <= |rows|
  {
    ApplyWrites(ContactWrites(rows, config, n))
  }

  function ContactWrites(rows: seq<Row>, config: SheetsConfig, n: nat): seq<Option<(string, Contact)>>
    requires n <= |rows|
  {
    seq(n, i requires 0 <= i < n => ContactWrite(rows[i], i, config))
  }

  /** Contact names are non-empty and contain no lower-case letter. */
  lemma ContactsKeys(rows: seq<Row>, config: SheetsConfig, n: nat, name: string)
    requires n <= |rows|
    requires name in Contacts(rows, config, n)
    ensures name != "" && forall k :: 0 <= k < |name| ==> !IsLowerAscii(name[k])
  {
    var ws := ContactWrites(rows, config, n);
    var w := ApplyWritesLast(ws, name);
    assert ws[w] == ContactWrite(rows[w], w, config);
  }

  /** A contacts row from the first contacts row on whose upper-cased name
      is non-blank registers that name. */
  lemma ContactsHasName(rows: seq<Row>, config: SheetsConfig, n: nat, i: nat)
    requires i < n <= |rows|
    ensures i >= ContactsFirstRow(config) && ContactName(rows[i], config) != "" ==>
      ContactName(rows[i], config) in Contacts(rows, config, n)
  {
    if i >= ContactsFirstRow(config) && ContactName(rows[i], config) != "" {
      var ws := ContactWrites(rows, config, n);
      assert ws[i] == ContactWrite(rows[i], i, config);
      ApplyWritesHasKey(ws, i);
    }
  }

  /** Every registered name comes from a contacts row whose upper-cased
      name it is, and holds that row's e-mail and phone cells; no later
      row carries the same name. */
  lemma ContactsWriter(rows: seq<Row>, config: SheetsConfig, n: nat, name: string) returns (i: nat)
    requires n <= |rows|
    requires name in Contacts(rows, config, n)
    ensures ContactsFirstRow(config) <= i < n
    ensures ContactName(rows[i], config) == name
    ensures Contacts(rows, config, n)[name] == ContactOf(rows[i], config)
    ensures forall j :: i < j < n && j >= ContactsFirstRow(config) ==>
      ContactName(rows[j], config) != name
  {
    var ws := ContactWrites(rows, config, n);
    i := ApplyWritesLast(ws, name);
    assert ws[i] == ContactWrite(rows[i], i, config);
    assert name != "";
    forall j | i < j < n && j >= ContactsFirstRow(config)
      ensures ContactName(rows[j], config) != name
    {
      assert ws[j] == ContactWrite(rows[j], j, config);
    }
  }

  // ----------------------------------------------------------- operators

  /** The operator a main-table row yields, if any: rows before
      `dataStartRowIndex` and rows whose name cell is falsy or whose trimmed
      name has at most one character yield none. The id is "op-" and the
      row index; e-mail and phone come from the contacts under the
      upper-cased name, '' when missing or empty. */
  function OperatorOfRow(
    row: Row, i: nat, config: SheetsConfig, schedule: Schedule, contacts: map<string, Contact>)
    : (r: Option<Operator>)
    ensures r.Some? ==> i >= config.dataStartRowIndex - 1 && r.value.schedule == schedule
    ensures r.Some? ==> r.value.id == RowId(i)
    ensures r.Some? <==> i >= config.dataStartRowIndex - 1 && |RowName(row, config)| > 1
    ensures r.Some? ==> r.value.name == RowName(row, config)
    ensures r.Some? ==> r.value.dateOfBirth.None? && r.value.email.Some? && r.value.phone.Some?
    ensures r.Some? && ToUpper(r.value.name) !in contacts ==> r.value.email == Some("") && r.value.phone == Some("")
    ensures r.Some? && ToUpper(r.value.name) in contacts ==>
      r.value.email == Some(contacts[ToUpper(r.value.name)].email) && r.value.phone == Some(contacts[ToUpper(r.value.name)].phone)
  {
    var name := RowName(row, config);
    if i < config.dataStartRowIndex - 1 || |name| <= 1 then None
    else
      var key := ToUpper(name);
      var email := if key in contacts then contacts[key].email else "";
      var phone := if key in contacts then contacts[key].phone else "";
      Some(Operator(RowId(i), name, Some(email), None, Some(phone), schedule))
  }

  /** The trimmed text of a row's name cell; '' when the cell is missing or
      its value is falsy. */
  function RowName(row: Row, config: SheetsConfig): (name: string)
    ensures |name| > 0 ==> !IsSpace(name[0]) && !IsSpace(name[|name| - 1])
  {
    var nameCell := CellAt(row, config.nameColumnIndex - 1);
    if nameCell.None? || !nameCell.value.v.Present? || !Truthy(nameCell.value.v.value) then ""
    else Trim(ValueText(nameCell.value.v.value))
  }

  /** The values present in `ys`, in order. */
  function Somes<T>(ys: seq<Option<T>>): seq<T> {
    if |ys| == 0 then []
    else
      var last := ys[|ys| - 1];
      Somes(ys[..|ys| - 1]) + (if last.Some? then [last.value] else [])
  }

  /** Every value in `Somes(ys)` is present at some position of `ys`. */
  lemma {:induction false} SomesSound<T>(ys: seq<Option<T>>, x: T) returns (i: nat)
    requires x in Somes(ys)
    ensures i < |ys| && ys[i] == Some(x)
    decreases |ys|
  {
    var init := ys[..|ys| - 1];
    if ys[|ys| - 1] == Some(x) {
      i := |ys| - 1;
    } else {
      assert x in Somes(init);
      i := SomesSound(init, x);
      assert ys[i] == init[i];
    }
  }

  /** Every value present in `ys` is in `Somes(ys)`. */
  lemma {:induction false} SomesComplete<T>(ys: seq<Option<T>>, i: nat)
    requires i < |ys| && ys[i].Some?
    ensures ys[i].value in Somes(ys)
    decreases |ys|
  {
    var init := ys[..|ys| - 1];
    if i < |ys| - 1 {
      assert ys[i] == init[i];
      SomesComplete(init, i);
    }
  }

  /** When the value at position `i` carries id `RowId(i)`, the collected
      values have pairwise distinct ids. */
  lemma {:induction false} SomesIdsDistinct(ys: seq<Option<Operator>>)
    requires forall i :: 0 <= i < |ys| && ys[i].Some? ==> ys[i].value.id == RowId(i)
    ensures forall a, b :: 0 <= a < b < |Somes(ys)| ==> Somes(ys)[a].id != Somes(ys)[b].id
    decreases |ys|
  {
    if |ys| > 0 {
      var init := ys[..|ys| - 1];
      var prev := Somes(init);
      assert forall i :: 0 <= i < |init| ==> init[i] == ys[i];
      SomesIdsDistinct(init);
      var last := ys[|ys| - 1];
      if last.Some? {
        forall a | 0 <= a < |prev| ensures prev[a].id != last.value.id {
          assert prev[a] in prev;
          var i := SomesSound(init, prev[a]);
          IdsDiffer(i, |ys| - 1);
        }
      }
    }
  }

  /** The id given to the operator of row `i`. */
  function RowId(i: nat): string { "op-" + NatToString(i) }

  /** What each row of the main table yields, in row order. */
  function RowYields(
    rows: seq<Row>, config: SheetsConfig, cols: map<nat, string>, nCols: nat, contacts: map<string, Contact>)
    : (r: seq<Option<Operator>>)
    ensures |r| == |rows|
    ensures forall i :: 0 <= i < |rows| && r[i].Some? ==> r[i].value.id == RowId(i)
  {
    seq(|rows|, i requires 0 <= i < |rows| => OperatorOfRow(rows[i], i, config, RowSchedule(rows[i], cols, nCols), contacts))
  }

  /** Step 3 of `fetchOperators`: the operators the rows yield, in row order. */
  function Operators(
    rows: seq<Row>, config: SheetsConfig, cols: map<nat, string>, nCols: nat, contacts: map<string, Contact>)
    : seq<Operator>
  {
    Somes(RowYields(rows, config, cols, nCols, contacts))
  }

  /** An operator is in the result exactly when some row yields it. */
  lemma OperatorsSpec(
    rows: seq<Row>, config: SheetsConfig, cols: map<nat, string>, nCols: nat, contacts: map<string, Contact>, op: Operator)
    ensures op in Operators(rows, config, cols, nCols, contacts) <==>
      exists i :: 0 <= i < |rows| && OperatorOfRow(rows[i], i, config, RowSchedule(rows[i], cols, nCols), contacts) == Some(op)
  {
    if op in Operators(rows, config, cols, nCols, contacts) {
      var i := OperatorsSound(rows, config, cols, nCols, contacts, op);
    }
    if exists i :: 0 <= i < |rows| && OperatorOfRow(rows[i], i, config, RowSchedule(rows[i], cols, nCols), contacts) == Some(op) {
      var i :| 0 <= i < |rows| && OperatorOfRow(rows[i], i, config, RowSchedule(rows[i], cols, nCols), contacts) == Some(op);
      OperatorsComplete(rows, config, cols, nCols, contacts, i);
    }
  }

  /** Every operator in the result comes from some row. */
  lemma OperatorsSound(
    rows: seq<Row>, config: SheetsConfig, cols: map<nat, string>, nCols: nat, contacts: map<string, Contact>, op: Operator)
    returns (i: nat)
    requires op in Operators(rows, config, cols, nCols, contacts)
    ensures i < |rows| && OperatorOfRow(rows[i], i, config, RowSchedule(rows[i], cols, nCols), contacts) == Some(op)
  {
    var ys := RowYields(rows, config, cols, nCols, contacts);
    i := SomesSound(ys, op);
  }

  /** Every operator a row yields is in the result. */
  lemma OperatorsComplete(
    rows: seq<Row>, config: SheetsConfig, cols: map<nat, string>, nCols: nat, contacts: map<string, Contact>, i: nat)
    requires i < |rows|
    ensures OperatorOfRow(rows[i], i, config, RowSchedule(rows[i], cols, nCols), contacts).Some? ==>
      OperatorOfRow(rows[i], i, config, RowSchedule(rows[i], cols, nCols), contacts).value
        in Operators(rows, config, cols, nCols, contacts)
  {
    if OperatorOfRow(rows[i], i, config, RowSchedule(rows[i], cols, nCols), contacts).Some? {
      var ys := RowYields(rows, config, cols, nCols, contacts);
      SomesComplete(ys, i);
    }
  }


  /** Operator ids are pairwise distinct: each is "op-" and its own row index. */
  lemma OperatorIdsDistinct(
    rows: seq<Row>, config: SheetsConfig, cols: map<nat, string>, nCols: nat, contacts: map<string, Contact>)
    ensures forall a, b :: 0 <= a < b < |Operators(rows, config, cols, nCols, contacts)| ==>
      Operators(rows, config, cols, nCols, contacts)[a].id != Operators(rows, config, cols, nCols, contacts)[b].id
  {
    SomesIdsDistinct(RowYields(rows, config, cols, nCols, contacts));
  }

  /** Ids of different rows differ. */
  lemma IdsDiffer(i: nat, j: nat)
    requires i != j
    ensures RowId(i) != RowId(j)
  {
    if "op-" + NatToString(i) == "op-" + NatToString(j) {
      assert NatToString(i) == ("op-" + NatToString(i))[3..];
      assert NatToString(j) == ("op-" + NatToString(j))[3..];
      NatToStringInjective(i, j);
    }
  }

  // ------------------------------------------------------- fetchOperators

  const MissingUrlError: string := "Spreadsheet URL configuration missing"
  const InvalidTableError: string := "Invalid table structure from Gviz"

  /** `fetchOperators` after the three downloads: `datesText`, `mainText`
      and `contactsText` are the fetched bodies ('' when a fetch was not
      made), `parse` is `JSON.parse`. The contacts body is used only when
      the contacts URL is not blank, since no request is made otherwise. */
  function FetchOperators(
    config: SheetsConfig, datesText: string, mainText: string, contactsText: string,
    parse: string -> Option<GvizResponse>, jsDate: CellValue -> Option<string>)
    : (r: Result<seq<Operator>>)
    ensures config.spreadsheetUrl == "" ==> r == Err(MissingUrlError)
    ensures config.spreadsheetUrl != "" && TableRows(ParseGvizResponse(mainText, parse)).None?
      ==> r == Err(InvalidTableError)
    ensures config.spreadsheetUrl != "" && TableRows(ParseGvizResponse(mainText, parse)).Some? ==> r.Ok?
    ensures r.Err? ==> r.message == MissingUrlError || r.message == InvalidTableError
  {
    if config.spreadsheetUrl == "" then Err(MissingUrlError)
    else
      var main := TableRows(ParseGvizResponse(mainText, parse));
      if main.None? then Err(InvalidTableError)
      else
        var dates := FetchDates(config, datesText, parse, jsDate);
        Ok(Operators(main.value, config, dates.0, dates.1, FetchContacts(config, contactsText, parse)))
  }

  /** `json?.table?.rows`: the rows of a parsed response, if it has them. */
  function TableRows(resp: Option<GvizResponse>): Option<seq<Row>> {
    if resp.Some? && resp.value.table.Some? && resp.value.table.value.rows.Some?
    then Some(resp.value.table.value.rows.value) else None
  }

  /** Step 1 of `fetchOperators`: the column-to-date map of the dates body. */
  function FetchDates(
    config: SheetsConfig, datesText: string, parse: string -> Option<GvizResponse>, jsDate: CellValue -> Option<string>)
    : (map<nat, string>, nat)
  {
    DateMap(ParseGvizResponse(datesText, parse), config.dataStartColIndex, jsDate)
  }

  /** Step 2 of `fetchOperators`: the contacts map of the contacts body,
      which is read only when the contacts URL is not blank. */
  function FetchContacts(config: SheetsConfig, contactsText: string, parse: string -> Option<GvizResponse>)
    : map<string, Contact>
  {
    var c := TableRows(ParseGvizResponse(if Trim(config.contactsUrl) != "" then contactsText else "", parse));
    var contactRows := if c.Some? then c.value else [];
    Contacts(contactRows, config, |contactRows|)
  }

  /** A successful fetch returns exactly the operators the main rows yield,
      with the schedules of the dates body and the contacts of the contacts
      body. */
  lemma FetchOperatorsContents(
    config: SheetsConfig, datesText: string, mainText: string, contactsText: string,
    parse: string -> Option<GvizResponse>, jsDate: CellValue -> Option<string>, op: Operator)
    requires config.spreadsheetUrl != ""
    ensures var main := TableRows(ParseGvizResponse(mainText, parse));
      var dates := FetchDates(config, datesText, parse, jsDate);
      var contacts := FetchContacts(config, contactsText, parse);
      var r := FetchOperators(config, datesText, mainText, contactsText, parse, jsDate);
      main.Some? ==>
        r.Ok? && (op in r.value <==>
          exists i :: 0 <= i < |main.value|
            && OperatorOfRow(main.value[i], i, config, RowSchedule(main.value[i], dates.0, dates.1), contacts) == Some(op))
  {
    var main := TableRows(ParseGvizResponse(mainText, parse));
    if main.Some? {
      var dates := FetchDates(config, datesText, parse, jsDate);
      OperatorsSpec(main.value, config, dates.0, dates.1, FetchContacts(config, contactsText, parse), op);
    }
  }

  /** Without a usable main table the fetch fails with the table error. */
  lemma FetchFailsWithoutTable(
    config: SheetsConfig, datesText: string, mainText: string, contactsText: string,
    parse: string -> Option<GvizResponse>, jsDate: CellValue -> Option<string>)
    requires config.spreadsheetUrl != ""
    requires '{' !in mainText
    ensures FetchOperators(config, datesText, mainText, contactsText, parse, jsDate) == Err(InvalidTableError)
  {
  }

  /** With a blank contacts URL the contacts body plays no part: every
      operator gets empty e-mail and phone. */
  lemma BlankContactsUrlGivesEmptyContacts(
    config: SheetsConfig, datesText: string, mainText: string, contactsText: string,
    parse: string -> Option<GvizResponse>, jsDate: CellValue -> Option<string>)
    requires Trim(config.contactsUrl) == ""
    ensures FetchOperators(config, datesText, mainText, contactsText, parse, jsDate).Ok? ==>
      forall op :: op in FetchOperators(config, datesText, mainText, contactsText, parse, jsDate).value ==>
        op.email == Some("") && op.phone == Some("")
  {
    if FetchOperators(config, datesText, mainText, contactsText, parse, jsDate).Ok? {
      var rows := TableRows(ParseGvizResponse(mainText, parse)).value;
      var dates := FetchDates(config, datesText, parse, jsDate);
      assert ParseGvizResponse("", parse) == None;
      assert FetchContacts(config, contactsText, parse) == Contacts([], config, 0) == map[];
      assert FetchOperators(config, datesText, mainText, contactsText, parse, jsDate).value
          == Operators(rows, config, dates.0, dates.1, map[]);
      NoContactsNoDetails(rows, config, dates.0, dates.1);
    }
  }

  /** Without contacts every operator gets empty e-mail and phone. */
  lemma NoContactsNoDetails(rows: seq<Row>, config: SheetsConfig, cols: map<nat, string>, nCols: nat)
    ensures forall op :: op in Operators(rows, config, cols, nCols, map[]) ==>
      op.email == Some("") && op.phone == Some("")
  {
    forall op | op in Operators(rows, config, cols, nCols, map[])
      ensures op.email == Some("") && op.phone == Some("")
    {
      var i := SomesSound(RowYields(rows, config, cols, nCols, map[]), op);
    }
  }
}
