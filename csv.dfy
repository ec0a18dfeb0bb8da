/**
 * The converter's reading of a CSV file's content: the first line names the columns, every
 * later line that is not blank becomes one record mapping each column name to the value in
 * the same position, and a missing value is the empty string. There is no quoting: every
 * comma separates.
 */
module Csv {
  import opened Text

  /** `parts.map(p => p.trim())`. */
  function TrimAll(parts: seq<string>): (r: seq<string>)
    ensures |r| == |parts|
  {
    seq(|parts|, k requires 0 <= k < |parts| => Trim(parts[k]))
  }

  /** The trimmed comma-separated values of one line. */
  function Values(line: string): seq<string> {
    TrimAll(Split(line, ','))
  }

  /** `values[index] || ''`. */
  function FieldValue(values: seq<string>, index: nat): string {
    if index < |values| then values[index] else ""
  }

  /**
   * The record the `forEach` over the column names builds, one assignment per column in
   * order, so a repeated name keeps its last value.
   */
  function RowRecord(headers: seq<string>, values: seq<string>): map<string, string> {
    if headers == [] then map[]
    else RowRecord(headers[..|headers| - 1], values)[headers[|headers| - 1] := FieldValue(values, |headers| - 1)]
  }

  /** `!line.trim()`: the line is whitespace only (see `TrimEmptyIff`). */
  predicate Blank(line: string) {
    AllSpaces(line)
  }

  /** The records of the given data lines under the given column names, in order, blank lines skipped. */
  function Records(lines: seq<string>, headers: seq<string>): seq<map<string, string>> {
    if lines == [] then []
    else
      var last := lines[|lines| - 1];
      Records(lines[..|lines| - 1], headers) + (if Blank(last) then [] else [RowRecord(headers, Values(last))])
  }

  lemma RecordsAppend(lines: seq<string>, line: string, headers: seq<string>)
    ensures Records(lines + [line], headers)
      == Records(lines, headers) + (if Blank(line) then [] else [RowRecord(headers, Values(line))])
  {
    assert (lines + [line])[..|lines|] == lines;
  }

  /** The records of a file's lines: the first names the columns, the rest are data. */
  function LinesRecords(lines: seq<string>): seq<map<string, string>>
    requires |lines| >= 1
  {
    Records(lines[1..], Values(lines[0]))
  }

  /** What parseCSVFile returns for a file's content. */
  function CsvRecords(content: string): seq<map<string, string>> {
    LinesRecords(Split(content, '\n'))
  }

  /** parseCSVFile on the content already read. */
  method ParseCsv(content: string) returns (verses: seq<map<string, string>>)
    ensures verses == CsvRecords(content)
  {
    verses := ParseLines(Split(content, '\n'));
  }

  /** Splits off the column names and reads the lines after them. */
  method ParseLines(lines: seq<string>) returns (verses: seq<map<string, string>>)
    requires |lines| >= 1
    ensures verses == LinesRecords(lines)
  {
    var headers := Values(lines[0]);
    verses := ParseDataLines(lines[1..], headers);
  }

  /** The loop over the data lines. */
  method ParseDataLines(data: seq<string>, headers: seq<string>) returns (verses: seq<map<string, string>>)
    ensures verses == Records(data, headers)
  {
    verses := [];
    var i := 0;
    while i < |data|
      invariant 0 <= i <= |data|
      invariant verses == Records(data[..i], headers)
    {
      assert data[..i + 1] == data[..i] + [data[i]];
      RecordsAppend(data[..i], data[i], headers);
      if !Blank(data[i]) {
        var verse := BuildRecord(headers, Values(data[i]));
        verses := verses + [verse];
      }
      i := i + 1;
    }
    assert data[..i] == data;
  }

  /** The `forEach` that fills one record. */
  method BuildRecord(headers: seq<string>, values: seq<string>) returns (verse: map<string, string>)
    ensures verse == RowRecord(headers, values)
  {
    verse := map[];
    var index := 0;
    while index < |headers|
      invariant 0 <= index <= |headers|
      invariant verse == RowRecord(headers[..index], values)
    {
      assert headers[..index + 1][..index] == headers[..index];
      verse := verse[headers[index] := FieldValue(values, index)];
      index := index + 1;
    }
    assert headers[..index] == headers;
  }

  /** A record has exactly the column names as its keys. */
  lemma {:induction false} RowRecordKeys(headers: seq<string>, values: seq<string>)
    ensures RowRecord(headers, values).Keys == set k | 0 <= k < |headers| :: headers[k]
  {
    if headers != [] {
      var init := headers[..|headers| - 1];
      RowRecordKeys(init, values);
      assert forall k :: 0 <= k < |init| ==> init[k] == headers[k];
    }
  }

  /**
   * A column whose name does not come again later holds the value in its own position,
   * or the empty string when the line has fewer values.
   */
  lemma {:induction false} RowRecordValue(headers: seq<string>, values: seq<string>, k: nat)
    requires k < |headers| && forall m :: k < m < |headers| ==> headers[m] != headers[k]
    ensures headers[k] in RowRecord(headers, values)
    ensures RowRecord(headers, values)[headers[k]] == FieldValue(values, k)
  {
    if k < |headers| - 1 {
      var init := headers[..|headers| - 1];
      RowRecordValue(init, values, k);
    }
  }

  /** The lines that are not blank, in order. */
  function NonBlank(lines: seq<string>): (r: seq<string>)
    ensures forall k :: 0 <= k < |r| ==> !Blank(r[k])
  {
    if lines == [] then []
    else if Blank(lines[0]) then NonBlank(lines[1..])
    else [lines[0]] + NonBlank(lines[1..])
  }

  lemma {:induction false} NonBlankAppend(lines: seq<string>, line: string)
    ensures NonBlank(lines + [line]) == NonBlank(lines) + (if Blank(line) then [] else [line])
  {
    if lines != [] {
      assert (lines + [line])[1..] == lines[1..] + [line];
      NonBlankAppend(lines[1..], line);
    }
  }

  /** Every line that is not blank gives one record, in the order of the lines. */
  lemma {:induction false} OneRecordPerLine(lines: seq<string>, headers: seq<string>)
    ensures |Records(lines, headers)| == |NonBlank(lines)|
    ensures forall m :: 0 <= m < |NonBlank(lines)| ==>
      Records(lines, headers)[m] == RowRecord(headers, Values(NonBlank(lines)[m]))
  {
    if lines != [] {
      var init := lines[..|lines| - 1];
      var last := lines[|lines| - 1];
      OneRecordPerLine(init, headers);
      assert lines == init + [last];
      NonBlankAppend(init, last);
      if !Blank(last) {
        var n := |NonBlank(init)|;
        assert NonBlank(lines)[n] == last;
        assert Records(lines, headers)[n] == RowRecord(headers, Values(last));
      }
    }
  }

  /** Of a file's lines, every line after the first that is not blank gives one record. */
  lemma LinesRecordsPerLine(lines: seq<string>)
    requires |lines| >= 1
    ensures |LinesRecords(lines)| == |NonBlank(lines[1..])|
    ensures forall m :: 0 <= m < |NonBlank(lines[1..])| ==>
      LinesRecords(lines)[m] == RowRecord(Values(lines[0]), Values(NonBlank(lines[1..])[m]))
  {
    OneRecordPerLine(lines[1..], Values(lines[0]));
  }
}
