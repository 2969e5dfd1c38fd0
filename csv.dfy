/** The CSV conventions of the chat report (ReportService.kt `escapeCsv` and
    the `joinToString(",")` of each row), following section 2 of RFC 4180:
    a field holding a comma, a double quote or a line feed is enclosed in
    double quotes (rule 6), and a double quote inside such a field is written
    twice (rule 7). A carriage return alone does not cause quoting. The
    reader below is the matching decoder, used only to state what a written
    record means. */
module Csv {

  /** `value.replace("\"", "\"\"")`. */
  function DoubleQuotes(s: string): (r: string)
    ensures '"' !in s ==> r == s
  {
    if s == [] then []
    else (if s[0] == '"' then "\"\"" else [s[0]]) + DoubleQuotes(s[1..])
  }

  /** Doubling quotes neither adds nor removes a kind of character. */
  lemma {:induction false} DoubleQuotesChars(s: string)
    ensures forall c :: c in DoubleQuotes(s) <==> c in s
  {
    if s != [] {
      DoubleQuotesChars(s[1..]);
      assert s == [s[0]] + s[1..];
    }
  }

  /** The characters that make `escapeCsv` enclose a field. */
  predicate NeedsQuoting(s: string) {
    ',' in s || '"' in s || '\n' in s
  }

  /** `escapeCsv`: a field with no comma, quote or line feed is written as
      it is; any other is enclosed in quotes with its quotes doubled. The
      test is made on the doubled text, which holds the same characters. */
  function EscapeCsv(value: string): (e: string)
    ensures !NeedsQuoting(value) ==> e == value
    ensures NeedsQuoting(value) ==> e == "\"" + DoubleQuotes(value) + "\""
  {
    var escaped := DoubleQuotes(value);
    DoubleQuotesChars(value);
    if ',' in escaped || '"' in escaped || '\n' in escaped then "\"" + escaped + "\"" else escaped
  }

  /** `joinToString(",")`. */
  function JoinComma(fields: seq<string>): string {
    if fields == [] then []
    else if |fields| == 1 then fields[0]
    else fields[0] + "," + JoinComma(fields[1..])
  }

  /** The joined text is empty for no fields, the field itself for one, and
      otherwise opens with the first field followed by a comma. */
  lemma JoinCommaShape(fields: seq<string>)
    ensures fields == [] ==> JoinComma(fields) == []
    ensures |fields| == 1 ==> JoinComma(fields) == fields[0]
    ensures |fields| > 0 ==> |fields[0]| <= |JoinComma(fields)| && JoinComma(fields)[..|fields[0]|] == fields[0]
    ensures |fields| > 1 ==> |fields[0]| < |JoinComma(fields)| && JoinComma(fields)[|fields[0]|] == ','
  {
  }

  function EscapeAll(fields: seq<string>): (r: seq<string>)
    ensures |r| == |fields|
    ensures forall i :: 0 <= i < |fields| ==> r[i] == EscapeCsv(fields[i])
  {
    if fields == [] then [] else [EscapeCsv(fields[0])] + EscapeAll(fields[1..])
  }

  /** What a field's own text leaves behind it in a record: nothing, the
      comma before the next field or the line feed ending the record. */
  predicate FieldEnd(rest: string) {
    rest == [] || rest[0] == ',' || rest[0] == '\n'
  }

  /** Reads the inside of a quoted field up to its closing quote, reading a
      doubled quote as one quote character; returns the value and the text
      after the closing quote (nothing when it is never closed). */
  function ReadQuoted(s: string): (r: (string, string))
    ensures |r.1| <= |s|
    ensures s != [] ==> |r.1| < |s|
  {
    if s == [] then ([], [])
    else if s[0] == '"' then
      if |s| >= 2 && s[1] == '"' then
        var t := ReadQuoted(s[2..]);
        (['"'] + t.0, t.1)
      else ([], s[1..])
    else
      var t := ReadQuoted(s[1..]);
      ([s[0]] + t.0, t.1)
  }

  /** Reads an unquoted field up to the next comma or line feed. */
  function ReadPlain(s: string): (r: (string, string))
    ensures |r.1| <= |s|
    ensures FieldEnd(r.1)
  {
    if FieldEnd(s) then ([], s)
    else
      var t := ReadPlain(s[1..]);
      ([s[0]] + t.0, t.1)
  }

  /** Reads one field, quoted or not. */
  function ReadField(s: string): (r: (string, string))
    ensures |r.1| <= |s|
    ensures s != [] && s[0] == '"' ==> |r.1| < |s|
    ensures (s == [] || s[0] != '"') ==> FieldEnd(r.1)
  {
    if s != [] && s[0] == '"' then ReadQuoted(s[1..]) else ReadPlain(s)
  }

  /** Reads one record: comma-separated fields up to and including the line
      feed that ends it. */
  function ReadRecord(s: string): (r: (seq<string>, string))
    ensures s != [] ==> |r.1| < |s|
    decreases |s|
  {
    var f := ReadField(s);
    if f.1 != [] && f.1[0] == ',' then
      var t := ReadRecord(f.1[1..]);
      ([f.0] + t.0, t.1)
    else if f.1 != [] && f.1[0] == '\n' then ([f.0], f.1[1..])
    else ([f.0], f.1)
  }

  /** Reads records until the text is used up. */
  function ReadRecords(s: string): seq<seq<string>>
    decreases |s|
  {
    if s == [] then [] else
      var r := ReadRecord(s);
      [r.0] + ReadRecords(r.1)
  }

  /** The text of one record written from field values. */
  function RecordText(fields: seq<string>): string {
    JoinComma(EscapeAll(fields)) + "\n"
  }

  /** Records written one after another. */
  function RecordsText(records: seq<seq<string>>): string {
    if records == [] then [] else RecordText(records[0]) + RecordsText(records[1..])
  }

  /** A doubled quote at the front reads as one quote character. */
  lemma ReadQuotedPair(tail: string)
    ensures ReadQuoted("\"\"" + tail) == (['"'] + ReadQuoted(tail).0, ReadQuoted(tail).1)
  {
    assert ("\"\"" + tail)[2..] == tail;
  }

  /** Any other character at the front is kept as it is. */
  lemma ReadQuotedChar(c: char, tail: string)
    requires c != '"'
    ensures ReadQuoted([c] + tail) == ([c] + ReadQuoted(tail).0, ReadQuoted(tail).1)
  {
    assert ([c] + tail)[1..] == tail;
  }

  /** The written text of a non-empty value splits after its first
      character's doubled form. */
  lemma DoubleQuotesStep(v: string, rest: string)
    requires v != []
    ensures DoubleQuotes(v) + ['"'] + rest ==
              (if v[0] == '"' then "\"\"" else [v[0]]) + (DoubleQuotes(v[1..]) + ['"'] + rest)
  {
    var head := if v[0] == '"' then "\"\"" else [v[0]];
    var body := DoubleQuotes(v[1..]);
    assert DoubleQuotes(v) == head + body;
    ConcatAssoc(head, body, ['"']);
    ConcatAssoc(head, body + ['"'], rest);
  }

  lemma ConcatAssoc(a: string, b: string, c: string)
    ensures a + b + c == a + (b + c)
  {
  }

  /** The doubling undone: a doubled-quote body followed by the closing quote
      reads back as the value, with the text after the quote left over. */
  lemma {:induction false} ReadQuotedDoubled(v: string, rest: string)
    requires rest == [] || rest[0] != '"'
    ensures ReadQuoted(DoubleQuotes(v) + ['"'] + rest) == (v, rest)
  {
    if v == [] {
      var s := ['"'] + rest;
      assert DoubleQuotes(v) + ['"'] + rest == s;
      assert s[1..] == rest;
    } else {
      var tail := DoubleQuotes(v[1..]) + ['"'] + rest;
      ReadQuotedDoubled(v[1..], rest);
      DoubleQuotesStep(v, rest);
      if v[0] == '"' {
        ReadQuotedPair(tail);
      } else {
        ReadQuotedChar(v[0], tail);
      }
      assert [v[0]] + v[1..] == v;
    }
  }

  /** A value with no comma and no line feed reads back unquoted. */
  lemma {:induction false} ReadPlainSafe(v: string, rest: string)
    requires ',' !in v && '\n' !in v
    requires FieldEnd(rest)
    ensures ReadPlain(v + rest) == (v, rest)
  {
    if v == [] {
      assert v + rest == rest;
    } else {
      assert (v + rest)[0] == v[0];
      assert (v + rest)[1..] == v[1..] + rest;
      ReadPlainSafe(v[1..], rest);
      assert [v[0]] + v[1..] == v;
    }
  }

  /** An enclosed field is its opening quote followed by the doubled body
      and the closing quote. */
  lemma EscapedQuotedSplit(v: string, rest: string)
    requires NeedsQuoting(v)
    ensures EscapeCsv(v) + rest == ['"'] + (DoubleQuotes(v) + ['"'] + rest)
  {
  }

  /** A field opening with a quote is read as a quoted one. */
  lemma ReadFieldQuote(s: string)
    ensures ReadField(['"'] + s) == ReadQuoted(s)
  {
    assert (['"'] + s)[1..] == s;
  }

  /** Every escaped field reads back as the value it was written from. */
  lemma ReadFieldEscaped(v: string, rest: string)
    requires FieldEnd(rest)
    ensures ReadField(EscapeCsv(v) + rest) == (v, rest)
  {
    if NeedsQuoting(v) {
      EscapedQuotedSplit(v, rest);
      ReadFieldQuote(DoubleQuotes(v) + ['"'] + rest);
      ReadQuotedDoubled(v, rest);
    } else {
      ReadPlainSafe(v, rest);
      assert v != [] ==> (v + rest)[0] == v[0];
    }
  }

  /** A record of one field is that field followed by the line feed. */
  lemma RecordTextSingle(fields: seq<string>, rest: string)
    requires |fields| == 1
    ensures RecordText(fields) + rest == EscapeCsv(fields[0]) + ("\n" + rest)
  {
    assert EscapeAll(fields) == [EscapeCsv(fields[0])];
  }

  /** A record of several fields is its first field, a comma and the
      record of the others. */
  lemma RecordTextSplit(fields: seq<string>, rest: string)
    requires |fields| > 1
    ensures RecordText(fields) + rest == EscapeCsv(fields[0]) + ("," + (RecordText(fields[1..]) + rest))
  {
    assert EscapeAll(fields)[1..] == EscapeAll(fields[1..]);
  }

  /** One step of the record reader: a field followed by a comma, then the
      rest of the record. */
  lemma ReadRecordComma(s: string, after: string)
    requires ReadField(s).1 == "," + after
    ensures ReadRecord(s) == ([ReadField(s).0] + ReadRecord(after).0, ReadRecord(after).1)
  {
    assert ("," + after)[1..] == after;
  }

  /** The last step of the record reader: a field followed by the line
      feed. */
  lemma ReadRecordNewline(s: string, rest: string)
    requires ReadField(s).1 == "\n" + rest
    ensures ReadRecord(s) == ([ReadField(s).0], rest)
  {
    assert ("\n" + rest)[1..] == rest;
  }

  /** A written record reads back as its fields, whatever follows it. */
  lemma {:induction false} ReadRecordWritten(fields: seq<string>, rest: string)
    requires |fields| > 0
    ensures ReadRecord(RecordText(fields) + rest) == (fields, rest)
  {
    if |fields| == 1 {
      RecordTextSingle(fields, rest);
      ReadFieldEscaped(fields[0], "\n" + rest);
      ReadRecordNewline(EscapeCsv(fields[0]) + ("\n" + rest), rest);
      assert fields == [fields[0]];
    } else {
      var tail := fields[1..];
      var after := RecordText(tail) + rest;
      RecordTextSplit(fields, rest);
      ReadFieldEscaped(fields[0], "," + after);
      ReadRecordComma(EscapeCsv(fields[0]) + ("," + after), after);
      ReadRecordWritten(tail, rest);
      assert [fields[0]] + tail == fields;
    }
  }

  /** Records written one after another read back as those records, in
      order. */
  lemma {:induction false} ReadRecordsWritten(records: seq<seq<string>>)
    requires forall i :: 0 <= i < |records| ==> |records[i]| > 0
    ensures ReadRecords(RecordsText(records)) == records
  {
    if records != [] {
      var s := RecordsText(records);
      ReadRecordWritten(records[0], RecordsText(records[1..]));
      assert s != [] by {
        assert |RecordText(records[0])| > 0;
      }
      ReadRecordsWritten(records[1..]);
      assert [records[0]] + records[1..] == records;
    }
  }

  /** Writing one more record appends its text. */
  lemma {:induction false} RecordsTextAppend(records: seq<seq<string>>, r: seq<string>)
    ensures RecordsText(records + [r]) == RecordsText(records) + RecordText(r)
  {
    if records == [] {
      assert [] + [r] == [r];
    } else {
      assert (records + [r])[1..] == records[1..] + [r];
      RecordsTextAppend(records[1..], r);
    }
  }

  /** The inverse of DoubleQuotes on the inside of a quoted field. */
  function CollapseQuotes(s: string): string {
    if |s| >= 2 && s[0] == '"' && s[1] == '"' then "\"" + CollapseQuotes(s[2..])
    else if s == [] then []
    else [s[0]] + CollapseQuotes(s[1..])
  }

  /** Undoing `escapeCsv` on its own: strip the enclosing quotes, if any, and
      collapse the doubled quotes. */
  function UnescapeCsv(e: string): string {
    if |e| >= 2 && e[0] == '"' && e[|e| - 1] == '"' then CollapseQuotes(e[1..|e| - 1]) else e
  }

  lemma {:induction false} CollapseDoubled(v: string)
    ensures CollapseQuotes(DoubleQuotes(v)) == v
  {
    if v != [] {
      CollapseDoubled(v[1..]);
      if v[0] == '"' {
        assert DoubleQuotes(v)[2..] == DoubleQuotes(v[1..]);
      } else {
        assert DoubleQuotes(v)[1..] == DoubleQuotes(v[1..]);
        assert ['"'] + ['"'] != [v[0]] + [] by { assert ['"'][0] != v[0]; }
      }
      assert [v[0]] + v[1..] == v;
    }
  }

  /** `escapeCsv` loses nothing: unescaping gives the value back. */
  lemma EscapeRoundTrip(v: string)
    ensures UnescapeCsv(EscapeCsv(v)) == v
  {
    var e := EscapeCsv(v);
    if NeedsQuoting(v) {
      assert e[1..|e| - 1] == DoubleQuotes(v);
      CollapseDoubled(v);
    } else if |e| >= 2 {
      assert e[0] in v;
    }
  }

  /** Inside a quoted field every quote is one of a pair (rule 7). */
  predicate PairedQuotes(s: string) {
    if s == [] then true
    else if s[0] == '"' then |s| >= 2 && s[1] == '"' && PairedQuotes(s[2..])
    else PairedQuotes(s[1..])
  }

  lemma {:induction false} DoubleQuotesPaired(v: string)
    ensures PairedQuotes(DoubleQuotes(v))
  {
    if v != [] {
      DoubleQuotesPaired(v[1..]);
      if v[0] == '"' {
        assert DoubleQuotes(v)[2..] == DoubleQuotes(v[1..]);
      } else {
        assert DoubleQuotes(v)[1..] == DoubleQuotes(v[1..]);
      }
    }
  }

  /** A field's text holds a comma or a line feed only when it is enclosed in
      quotes, and a quoted field's inside has its quotes paired. */
  lemma EscapedFieldShape(v: string)
    ensures var e := EscapeCsv(v);
            (',' in e || '\n' in e || '"' in e) ==>
              |e| >= 2 && e[0] == '"' && e[|e| - 1] == '"' && PairedQuotes(e[1..|e| - 1])
  {
    var e := EscapeCsv(v);
    if NeedsQuoting(v) {
      assert e[1..|e| - 1] == DoubleQuotes(v);
      DoubleQuotesPaired(v);
    }
  }

  /** A lone carriage return is written as it is. */
  lemma CarriageReturnNotQuoted()
    ensures EscapeCsv("a\rb") == "a\rb"
  {
    assert !NeedsQuoting("a\rb");
  }

  /** A comma causes quoting. */
  lemma CommaExample()
    ensures EscapeCsv("a,b") == "\"a,b\""
  {
    assert "a,b"[1] == ',';
    assert DoubleQuotes("a,b") == "a,b";
  }

  /** A quote causes quoting and is doubled. */
  lemma QuoteExample()
    ensures EscapeCsv("x\"y") == "\"x\"\"y\""
  {
    assert "x\"y"[1] == '"';
    assert "x\"y"[1..] == "\"y";
    assert "\"y"[1..] == "y";
    assert DoubleQuotes("\"y") == "\"\"" + "y";
    assert DoubleQuotes("x\"y") == "x" + ("\"\"" + "y");
  }
}
