// Reading the seed data (prisma/seed-data/parse.ts): one CSV line, and the rows of the airlines file.
module SeedParsing {
  import opened Text

  // ---- one line -------------------------------------------------------------------------

  /** The fields of the rest of a line, given the field begun and whether a quote is open. */
  function FieldsOf(rest: string, cur: string, inQ: bool): (fields: seq<string>)
    ensures fields != []
    decreases |rest|
  {
    if rest == [] then [cur]
    else if inQ then
      if rest[0] != '"' then FieldsOf(rest[1..], cur + [rest[0]], true)
      else if |rest| > 1 && rest[1] == '"' then FieldsOf(rest[2..], cur + ['"'], true)
      else FieldsOf(rest[1..], cur, false)
    else
      if rest[0] == '"' then FieldsOf(rest[1..], cur, true)
      else if rest[0] == ',' then [cur] + FieldsOf(rest[1..], "", false)
      else FieldsOf(rest[1..], cur + [rest[0]], false)
  }

  method ParseCsvLine(line: string) returns (out: seq<string>)
    ensures out == FieldsOf(line, "", false)
  {
    out := [];
    var cur := "";
    var inQ := false;
    var i := 0;
    assert line[0..] == line;
    while i < |line|
      invariant 0 <= i <= |line|
      invariant out + FieldsOf(line[i..], cur, inQ) == FieldsOf(line, "", false)
    {
      var c := line[i];
      assert line[i..][1..] == line[i + 1..];
      assert i + 1 < |line| ==> line[i..][2..] == line[i + 2..];
      if inQ {
        if c == '"' {
          if i + 1 < |line| && line[i + 1] == '"' {
            cur := cur + ['"'];
            i := i + 1;
          } else {
            inQ := false;
          }
        } else {
          cur := cur + [c];
        }
      } else {
        if c == '"' {
          inQ := true;
        } else if c == ',' {
          assert out + ([cur] + FieldsOf(line[i + 1..], "", false)) == (out + [cur])
                 + FieldsOf(line[i + 1..], "", false);
          out := out + [cur];
          cur := "";
        } else {
          cur := cur + [c];
        }
      }
      i := i + 1;
    }
    assert line[|line|..] == [];
    out := out + [cur];
  }

  // ---- writing a line, as in section 2 of RFC 4180 ---------------------------------------------

  predicate NeedsQuotes(field: string) {
    ',' in field || '"' in field
  }

  function Doubled(field: string): string {
    if field == [] then [] else (if field[0] == '"' then "\"\"" else [field[0]]) + Doubled(field[1..])
  }

  function PrintField(field: string, quoted: bool): string {
    if quoted then "\"" + Doubled(field) + "\"" else field
  }

  /** `quoted` says which fields are put in quotes; others may be besides those that need it. */
  function PrintLine(fields: seq<string>, quoted: seq<bool>): string
    requires |fields| == |quoted| > 0
  {
    if |fields| == 1 then PrintField(fields[0], quoted[0])
    else PrintField(fields[0], quoted[0]) + "," + PrintLine(fields[1..], quoted[1..])
  }

  lemma {:induction false} QuotedIsRead(field: string, rest: string, cur: string)
    requires rest == [] || rest[0] != '"'
    ensures FieldsOf(Doubled(field) + "\"" + rest, cur, true) == FieldsOf(rest, cur + field, false)
    decreases |field|
  {
    var text := Doubled(field) + "\"" + rest;
    if field == [] {
      assert text[1..] == rest && cur + field == cur;
    } else {
      var tail := Doubled(field[1..]) + "\"" + rest;
      assert cur + [field[0]] + field[1..] == cur + field;
      if field[0] == '"' {
        assert text == "\"\"" + tail;
        assert text[2..] == tail;
      } else {
        assert text == [field[0]] + tail;
        assert text[1..] == tail;
      }
      QuotedIsRead(field[1..], rest, cur + [field[0]]);
    }
  }

  lemma {:induction false} PlainIsRead(field: string, rest: string, cur: string)
    requires !NeedsQuotes(field)
    ensures FieldsOf(field + rest, cur, false) == FieldsOf(rest, cur + field, false)
    decreases |field|
  {
    if field == [] {
      assert field + rest == rest && cur + field == cur;
    } else {
      assert (field + rest)[1..] == field[1..] + rest;
      assert cur + [field[0]] + field[1..] == cur + field;
      PlainIsRead(field[1..], rest, cur + [field[0]]);
    }
  }

  lemma FieldIsRead(field: string, quoted: bool, rest: string)
    requires NeedsQuotes(field) ==> quoted
    requires rest == [] || rest[0] != '"'
    ensures FieldsOf(PrintField(field, quoted) + rest, "", false) == FieldsOf(rest, field, false)
  {
    hide FieldsOf;
    assert "" + field == field;
    if quoted {
      var inner := Doubled(field) + "\"" + rest;
      assert PrintField(field, quoted) + rest == "\"" + inner;
      OpeningQuote(inner);
      QuotedIsRead(field, rest, "");
    } else {
      PlainIsRead(field, rest, "");
    }
  }

  lemma OpeningQuote(rest: string)
    ensures FieldsOf("\"" + rest, "", false) == FieldsOf(rest, "", true)
  {
    assert ("\"" + rest)[1..] == rest;
  }

  /** Every non-empty list of fields, of any characters, is read back from every way of writing it. */
  lemma {:induction false} PrintThenParse(fields: seq<string>, quoted: seq<bool>)
    requires |fields| == |quoted| > 0
    requires forall i :: 0 <= i < |fields| && NeedsQuotes(fields[i]) ==> quoted[i]
    ensures FieldsOf(PrintLine(fields, quoted), "", false) == fields
    decreases |fields|
  {
    hide PrintField, NeedsQuotes;
    if |fields| == 1 {
      FieldIsRead(fields[0], quoted[0], "");
      assert PrintField(fields[0], quoted[0]) + "" == PrintField(fields[0], quoted[0]);
    } else {
      var tail := PrintLine(fields[1..], quoted[1..]);
      PrintThenParse(fields[1..], quoted[1..]);
      FieldIsRead(fields[0], quoted[0], "," + tail);
      assert PrintField(fields[0], quoted[0]) + ("," + tail) == PrintLine(fields, quoted);
      assert ("," + tail)[1..] == tail;
      assert [fields[0]] + fields[1..] == fields;
    }
  }

  // ---- lines that are not written so --------------------------------------------------------------

  /** A quote in the middle of a field opens a part in which commas and doubled quotes belong to the field. */
  lemma QuotedPartIsRead(plain: string, part: string, rest: string, cur: string)
    requires !NeedsQuotes(plain) && (rest == [] || rest[0] != '"')
    ensures FieldsOf(plain + "\"" + Doubled(part) + "\"" + rest, cur, false)
         == FieldsOf(rest, cur + plain + part, false)
  {
    hide FieldsOf, NeedsQuotes;
    var inner := Doubled(part) + "\"" + rest;
    assert plain + "\"" + Doubled(part) + "\"" + rest == plain + ("\"" + inner);
    PlainIsRead(plain, "\"" + inner, cur);
    QuoteOpens(inner, cur + plain);
    QuotedIsRead(part, rest, cur + plain);
  }

  lemma QuoteOpens(rest: string, cur: string)
    ensures FieldsOf("\"" + rest, cur, false) == FieldsOf(rest, cur, true)
  {
    assert ("\"" + rest)[1..] == rest;
  }

  /** A quote that is never closed runs to the end of the line. */
  lemma {:induction false} OpenPartIsRead(part: string, cur: string)
    ensures FieldsOf(Doubled(part), cur, true) == [cur + part]
    decreases |part|
  {
    if part == [] {
      assert cur + part == cur;
    } else {
      assert cur + [part[0]] + part[1..] == cur + part;
      if part[0] == '"' {
        assert Doubled(part)[2..] == Doubled(part[1..]);
      } else {
        assert Doubled(part)[1..] == Doubled(part[1..]);
      }
      OpenPartIsRead(part[1..], cur + [part[0]]);
    }
  }

  /** A comma outside quotes ends the field, and what follows is read by itself. */
  lemma {:induction false} FieldsThenRest(fields: seq<string>, quoted: seq<bool>, rest: string)
    requires |fields| == |quoted| > 0
    requires forall i :: 0 <= i < |fields| && NeedsQuotes(fields[i]) ==> quoted[i]
    ensures FieldsOf(PrintLine(fields, quoted) + "," + rest, "", false) == fields + FieldsOf(rest, "", false)
    decreases |fields|
  {
    hide PrintField, NeedsQuotes;
    var first := PrintField(fields[0], quoted[0]);
    var tail := if |fields| == 1 then rest else PrintLine(fields[1..], quoted[1..]) + "," + rest;
    assert PrintLine(fields, quoted) + "," + rest == first + ("," + tail);
    FieldIsRead(fields[0], quoted[0], "," + tail);
    assert ("," + tail)[1..] == tail;
    if |fields| > 1 {
      FieldsThenRest(fields[1..], quoted[1..], rest);
      assert fields == [fields[0]] + fields[1..];
    } else {
      assert fields == [fields[0]];
    }
  }

  /** So a line that ends inside quotes has a last field of all that follows them. */
  lemma OpenQuoteIsRead(fields: seq<string>, quoted: seq<bool>, last: string)
    requires |fields| == |quoted| > 0
    requires forall i :: 0 <= i < |fields| && NeedsQuotes(fields[i]) ==> quoted[i]
    ensures FieldsOf(PrintLine(fields, quoted) + "," + ("\"" + Doubled(last)), "", false) == fields + [last]
  {
    hide FieldsOf, PrintLine, NeedsQuotes;
    FieldsThenRest(fields, quoted, "\"" + Doubled(last));
    QuoteOpens(Doubled(last), "");
    OpenPartIsRead(last, "");
    assert "" + last == last;
  }

  // ---- the airlines file ---------------------------------------------------------------------------

  datatype Airline = Airline(iata: Option<string>, icao: Option<string>, name: string, country: Option<string>,
                             isActive: bool)

  function TrimmedField(fields: seq<string>, i: nat): Option<string> {
    if i < |fields| then Some(Trim(fields[i])) else None
  }

  /** Missing, empty and \N fields are null. */
  function Nullable(field: Option<string>): (r: Option<string>)
    ensures r.Some? ==> r == field && r.value != "" && r.value != "\\N"
  {
    if field.Some? && field.value != "" && field.value != "\\N" then field else None
  }

  predicate IsPlaceholder(name: Option<string>) {
    name.None? || name.value in ["", "-", "Unknown", "Private flight"]
  }

  /** The row of a line, if it names an airline with a code. */
  function RowOf(fields: seq<string>): Option<Airline> {
    var name := TrimmedField(fields, 1);
    var iata, icao := Nullable(TrimmedField(fields, 3)), Nullable(TrimmedField(fields, 4));
    if IsPlaceholder(name) || (iata.None? && icao.None?) then None
    else Some(Airline(iata, icao, name.value, Nullable(TrimmedField(fields, 6)), TrimmedField(fields, 7) == Some("Y")))
  }

  /** The column holds something: neither nothing nor \N. */
  predicate IsGiven(field: string) {
    Trim(field) != "" && Trim(field) != "\\N"
  }

  predicate IsColumn(value: Option<string>, field: string) {
    if IsGiven(field) then value == Some(Trim(field)) else value.None?
  }

  /**
   * What a line with the columns id, name, alias, IATA code, ICAO code, callsign, country and active says, in whatever
   * way its fields are written: it names an airline unless the name is a placeholder or neither code is given.
   */
  lemma LineIsRead(fields: seq<string>, quoted: seq<bool>)
    requires |fields| == |quoted| >= 8
    requires forall i :: 0 <= i < |fields| && NeedsQuotes(fields[i]) ==> quoted[i]
    ensures var row := RowOf(FieldsOf(PrintLine(fields, quoted), "", false));
            && (row.Some? <==> && Trim(fields[1]) !in {"", "-", "Unknown", "Private flight"}
                               && (IsGiven(fields[3]) || IsGiven(fields[4])))
            && (row.Some? ==>
                  && row.value.name == Trim(fields[1])
                  && IsColumn(row.value.iata, fields[3]) && IsColumn(row.value.icao, fields[4])
                  && IsColumn(row.value.country, fields[6])
                  && (row.value.isActive <==> Trim(fields[7]) == "Y"))
  {
    hide Trim, PrintLine, NeedsQuotes;
    PrintThenParse(fields, quoted);
  }

  /** The same IATA code, or no IATA code and the same ICAO code. */
  predicate SameAirline(a: Airline, b: Airline) {
    a.iata == b.iata && (a.iata.None? ==> a.icao == b.icao)
  }

  predicate Duplicate(rows: seq<Airline>, a: Airline) {
    exists k :: 0 <= k < |rows| && SameAirline(rows[k], a)
  }

  /** Each row unless an earlier one is the same airline. */
  function Deduplicated(lines: seq<string>): seq<Airline> {
    if lines == [] then []
    else
      var n := |lines| - 1;
      var rows := Deduplicated(lines[..n]);
      var row := RowOf(FieldsOf(lines[n], "", false));
      if row.None? || Duplicate(rows, row.value) then rows else rows + [row.value]
  }

  ghost predicate SeenAre(rows: seq<Airline>, seenIata: set<string>, seenIcao: set<string>) {
    && (forall code :: code in seenIata <==> exists k :: 0 <= k < |rows| && rows[k].iata == Some(code))
    && (forall code :: code in seenIcao <==>
          exists k :: 0 <= k < |rows| && rows[k].iata.None? && rows[k].icao == Some(code))
  }

  lemma SeenStays(rows: seq<Airline>, row: Airline, seenIata: set<string>, seenIcao: set<string>)
    requires SeenAre(rows, seenIata, seenIcao) && (row.iata.None? ==> row.icao.Some?)
    ensures row.iata.Some? ==> SeenAre(rows + [row], seenIata + {row.iata.value}, seenIcao)
    ensures row.iata.None? ==> SeenAre(rows + [row], seenIata, seenIcao + {row.icao.value})
    ensures Duplicate(rows, row) <==> if row.iata.Some? then row.iata.value in seenIata else row.icao.value in seenIcao
  {
    var all := rows + [row];
    assert all[|rows|] == row;
    forall code ensures (exists k :: 0 <= k < |all| && all[k].iata == Some(code)) <==>
      row.iata == Some(code)
      || exists k :: 0 <= k < |rows| && rows[k].iata == Some(code) {
      if k :| 0 <= k < |rows| && rows[k].iata == Some(code) {
        assert all[k].iata == Some(code);
      }
    }
    forall code
      ensures (exists k :: 0 <= k < |all| && all[k].iata.None? && all[k].icao == Some(code))
              <==> (row.iata.None? && row.icao == Some(code))
                   || (exists k :: 0 <= k < |rows| && rows[k].iata.None? && rows[k].icao == Some(code))
    {
      if k :| 0 <= k < |rows| && rows[k].iata.None? && rows[k].icao == Some(code) {
        assert all[k].iata.None? && all[k].icao == Some(code);
      }
    }
  }

  /** parseAirlinesDat up to the corrections: the rows of the file's non-empty lines. */
  method ParseAirlineRows(lines: seq<string>) returns (rows: seq<Airline>)
    ensures rows == Deduplicated(lines)
  {
    hide SeenAre, Duplicate, RowOf, FieldsOf;
    rows := [];
    var seenIata: set<string> := {};
    var seenIcao: set<string> := {};
    NothingSeen();
    for i := 0 to |lines|
      invariant rows == Deduplicated(lines[..i]) && SeenAre(rows, seenIata, seenIcao)
    {
      assert lines[..i + 1][..i] == lines[..i];
      var f := ParseCsvLine(lines[i]);
      var row := RowOf(f);
      RowHasCode(f);
      if row.None? { continue; }
      SeenStays(rows, row.value, seenIata, seenIcao);
      if row.value.iata.Some? {
        if row.value.iata.value in seenIata { continue; }
        seenIata := seenIata + {row.value.iata.value};
      } else {
        if row.value.icao.value in seenIcao { continue; }
        seenIcao := seenIcao + {row.value.icao.value};
      }
      rows := rows + [row.value];
    }
    assert lines[..|lines|] == lines;
  }

  lemma NothingSeen()
    ensures SeenAre([], {}, {})
  {
  }

  lemma RowHasCode(fields: seq<string>)
    ensures RowOf(fields).Some? ==> HasCode(RowOf(fields).value)
  {
  }

  /** A row has a code, and no code is empty. */
  predicate HasCode(a: Airline) {
    && (a.iata.Some? || a.icao.Some?)
    && (a.iata.Some? ==> a.iata.value != "") && (a.icao.Some? ==> a.icao.value != "")
  }

  predicate AllDistinct(rows: seq<Airline>) {
    forall i, j :: 0 <= i < j < |rows| ==> !SameAirline(rows[i], rows[j])
  }

  /** No airline is listed twice, and every airline of the file is listed, with the values of its first line. */
  lemma {:induction false} FirstLineWins(lines: seq<string>, i: nat)
    requires i < |lines| && RowOf(FieldsOf(lines[i], "", false)).Some?
    ensures var row := RowOf(FieldsOf(lines[i], "", false)).value;
            Duplicate(Deduplicated(lines), row)
            && ((forall j :: 0 <= j < i
                             && RowOf(FieldsOf(lines[j], "", false)).Some? ==>
                    !SameAirline(RowOf(FieldsOf(lines[j], "", false)).value, row))
                ==> row in Deduplicated(lines))
    decreases |lines|
  {
    hide RowOf, FieldsOf, SameAirline;
    var n := |lines| - 1;
    var rows, all := Deduplicated(lines[..n]), Deduplicated(lines);
    var row := RowOf(FieldsOf(lines[i], "", false)).value;
    SameIsEquivalence(row, row, row);
    if i < n {
      FirstLineWins(lines[..n], i);
      assert lines[..n][i] == lines[i];
      var k :| 0 <= k < |rows| && SameAirline(rows[k], row);
      assert all[k] == rows[k];
      assert forall j :: 0 <= j < i ==> lines[..n][j] == lines[j];
      assert row in rows ==> row in all;
    } else {
      if Duplicate(rows, row) {
        var k :| 0 <= k < |rows| && SameAirline(rows[k], row);
        RowsAreOfLines(lines[..n], rows[k]);
        var j :| 0 <= j < n && RowOf(FieldsOf(lines[..n][j], "", false)) == Some(rows[k]);
        assert lines[..n][j] == lines[j];
      } else {
        assert all[|rows|] == row;
      }
    }
  }

  /** Rows are in the order of their lines: what the first lines give comes first. */
  lemma {:induction false} RowsInOrder(lines: seq<string>, n: nat)
    requires n <= |lines|
    ensures Deduplicated(lines[..n]) <= Deduplicated(lines)
    decreases |lines|
  {
    hide RowOf, FieldsOf, Duplicate;
    if n < |lines| {
      var m := |lines| - 1;
      RowsInOrder(lines[..m], n);
      assert lines[..m][..n] == lines[..n];
    } else {
      assert lines[..n] == lines;
    }
  }

  lemma SameIsEquivalence(a: Airline, b: Airline, c: Airline)
    ensures SameAirline(a, a)
    ensures SameAirline(a, b) ==> SameAirline(b, a)
    ensures SameAirline(a, b) && SameAirline(b, c) ==> SameAirline(a, c)
  {
  }

  lemma {:induction false} RowsAreOfLines(lines: seq<string>, row: Airline)
    requires row in Deduplicated(lines)
    ensures exists j :: 0 <= j < |lines| && RowOf(FieldsOf(lines[j], "", false)) == Some(row)
    decreases |lines|
  {
    hide RowOf, FieldsOf, Duplicate;
    var n := |lines| - 1;
    if row in Deduplicated(lines[..n]) {
      RowsAreOfLines(lines[..n], row);
      var j :| 0 <= j < n && RowOf(FieldsOf(lines[..n][j], "", false)) == Some(row);
      assert lines[..n][j] == lines[j];
    } else {
      assert RowOf(FieldsOf(lines[n], "", false)) == Some(row);
    }
  }

  /**
   * What the corrections rely on: distinct IATA codes, distinct ICAO codes among the rows without one, no empty code.
   */
  lemma {:induction false} FileRowsAreDistinct(lines: seq<string>)
    ensures AllDistinct(Deduplicated(lines))
    ensures forall row :: row in Deduplicated(lines) ==> HasCode(row)
    decreases |lines|
  {
    hide RowOf, FieldsOf, SameAirline, HasCode;
    if lines != [] {
      var n := |lines| - 1;
      FileRowsAreDistinct(lines[..n]);
      RowHasCode(FieldsOf(lines[n], "", false));
    }
  }
}
