// Corrections and additions to the airline rows of the seed data
// (prisma/seed-data/curated-airlines.ts). The rows are objects changed in place; what the
// changes come to is stated on their values.
module CuratedAirlines {
  import opened Text
  import opened SeedParsing

  datatype Mode = Update | Relabel | Adopt | Insert

  datatype Descriptor = Descriptor(name: string, icao: Option<string>, iata: Option<string>)

  datatype Entry = Entry(
    iata: string, icao: string, name: string, country: string, isActive: bool,
    mode: Mode, keepPrevious: bool, own: Option<Descriptor>)

  datatype CuratedFile = CuratedFile(airlines: seq<Entry>, deactivate: seq<Descriptor>)

  /** A code that is there: neither null nor empty. */
  predicate IsCode(code: Option<string>) {
    code.Some? && code.value != ""
  }

  // ---- codes that are no designators -----------------------------------------------------------

  predicate IsUpper(c: char) {
    'A' <= c <= 'Z'
  }

  predicate IsIata(s: string) {
    |s| == 2 && forall i :: 0 <= i < 2 ==> IsUpper(s[i]) || '0' <= s[i] <= '9'
  }

  predicate IsIcao(s: string) {
    |s| == 3 && forall i :: 0 <= i < 3 ==> IsUpper(s[i])
  }

  function Sanitized(row: Airline): Airline {
    row.(iata := if row.iata.Some? && IsIata(row.iata.value) then row.iata else None,
         icao := if row.icao.Some? && IsIcao(row.icao.value) then row.icao else None)
  }

  function SanitizedRows(rows: seq<Airline>): seq<Airline> {
    if rows == [] then []
    else
      var last := Sanitized(rows[|rows| - 1]);
      SanitizedRows(rows[..|rows| - 1]) + (if last.iata.Some? || last.icao.Some? then [last] else [])
  }

  method SanitizeAirlineRows(rows: seq<Airline>) returns (out: seq<Airline>)
    ensures out == SanitizedRows(rows)
  {
    out := [];
    for i := 0 to |rows|
      invariant out == SanitizedRows(rows[..i])
    {
      assert rows[..i + 1][..i] == rows[..i];
      var row := rows[i];
      var iata := if row.iata.Some? && IsIata(row.iata.value) then row.iata else None;
      var icao := if row.icao.Some? && IsIcao(row.icao.value) then row.icao else None;
      if iata.None? && icao.None? { continue; }
      out := out + [row.(iata := iata, icao := icao)];
    }
    assert rows[..|rows|] == rows;
  }

  predicate UniqueIata(rows: seq<Airline>) {
    forall i, j :: 0 <= i < j < |rows| && IsCode(rows[i].iata) ==> rows[i].iata != rows[j].iata
  }

  /**
   * The rows of a file without duplicates, cleaned: real codes only, every airline with one kept, IATA codes still
   * unique.
   */
  lemma {:induction false} SanitizedAreUnique(rows: seq<Airline>)
    requires AllDistinct(rows)
    ensures UniqueIata(SanitizedRows(rows))
    ensures forall row :: row in rows && (Sanitized(row).iata.Some? || Sanitized(row).icao.Some?) ==>
              Sanitized(row) in SanitizedRows(rows)
    ensures forall row :: row in SanitizedRows(rows) ==>
              && (row.iata.Some? || row.icao.Some?)
              && (row.iata.Some? ==> IsIata(row.iata.value) && exists k :: 0 <= k < |rows| && rows[k].iata == row.iata)
              && (row.icao.Some? ==> IsIcao(row.icao.value))
  {
    hide IsIata, IsIcao;
    if rows != [] {
      var n := |rows| - 1;
      SanitizedAreUnique(rows[..n]);
      var before := SanitizedRows(rows[..n]);
      forall row | row in before && row.iata.Some? ensures exists k :: 0 <= k < n && rows[k].iata == row.iata {
        var k :| 0 <= k < n && rows[..n][k].iata == row.iata;
        assert rows[k].iata == row.iata;
      }
      var last := Sanitized(rows[n]);
      forall i | 0 <= i < |before| && IsCode(before[i].iata) ensures before[i].iata != last.iata {
        assert before[i] in before;
      }
      assert last.iata.Some? ==> rows[n].iata == last.iata;
    }
  }

  const LETTERS := "ABCDEFGHIJKLMNOPQRSTUVWXYZ"

  const LETTERS_AND_DIGITS := "ABCDEFGHIJKLMNOPQRSTUVWXYZ0123456789"

  /** The code if it has so many characters, all of them from the alphabet, else none. */
  predicate IsCleanCode(code: Option<string>, raw: Option<string>, length: nat, alphabet: string) {
    if raw.Some? && |raw.value| == length && forall i :: 0 <= i < length ==> raw.value[i] in alphabet then code == raw
    else code.None?
  }

  /** Only the two codes may be dropped from a row. */
  predicate IsCleanOf(row: Airline, raw: Airline) {
    && IsCleanCode(row.iata, raw.iata, 2, LETTERS_AND_DIGITS) && IsCleanCode(row.icao, raw.icao, 3, LETTERS)
    && row.name == raw.name && row.country == raw.country && row.isActive == raw.isActive
  }

  lemma InAlphabet(c: char)
    ensures c in LETTERS <==> IsUpper(c)
    ensures c in LETTERS_AND_DIGITS <==> IsUpper(c) || '0' <= c <= '9'
  {
    assert forall i :: 0 <= i < 26 ==> LETTERS[i] as int == 'A' as int + i && LETTERS_AND_DIGITS[i] == LETTERS[i];
    assert forall i :: 26 <= i < 36 ==> LETTERS_AND_DIGITS[i] as int == '0' as int + i - 26;
    if IsUpper(c) {
      assert LETTERS[c as int - 'A' as int] == c && LETTERS_AND_DIGITS[c as int - 'A' as int] == c;
    }
    if '0' <= c <= '9' {
      assert LETTERS_AND_DIGITS[c as int - '0' as int + 26] == c;
    }
  }

  lemma SanitizedIsClean(row: Airline, raw: Airline)
    ensures IsCleanOf(row, raw) <==> row == Sanitized(raw)
  {
    forall c
      ensures c in LETTERS <==> IsUpper(c)
      ensures c in LETTERS_AND_DIGITS <==> IsUpper(c) || '0' <= c <= '9'
    {
      InAlphabet(c);
    }
    hide IsUpper;
  }

  /** The cleaned rows are exactly those of the file, cleaned, that have a code left. */
  lemma {:induction false} SanitizedExactly(rows: seq<Airline>, row: Airline)
    ensures row in SanitizedRows(rows) <==>
              && (row.iata.Some? || row.icao.Some?)
              && exists k :: 0 <= k < |rows| && IsCleanOf(row, rows[k])
  {
    hide IsCleanOf, Sanitized;
    if rows != [] {
      var n := |rows| - 1;
      SanitizedExactly(rows[..n], row);
      SanitizedIsClean(row, rows[n]);
      if k :| 0 <= k < n && IsCleanOf(row, rows[..n][k]) {
        assert IsCleanOf(row, rows[k]);
      }
      if k :| 0 <= k < n && IsCleanOf(row, rows[k]) {
        assert IsCleanOf(row, rows[..n][k]);
      }
    }
  }

  /** They stay in order. */
  lemma {:induction false} SanitizedOfConcat(a: seq<Airline>, b: seq<Airline>)
    ensures SanitizedRows(a + b) == SanitizedRows(a) + SanitizedRows(b)
  {
    hide Sanitized;
    if b == [] {
      assert a + b == a;
    } else {
      var n := |b| - 1;
      SanitizedOfConcat(a, b[..n]);
      assert (a + b)[..|a + b| - 1] == a + b[..n];
    }
  }

  // ---- one entry, on values ---------------------------------------------------------------------

  /** rows.find: the first index, or the length. */
  function FindIata(rows: seq<Airline>, iata: string): (k: nat)
    ensures k <= |rows| && (k < |rows| ==> rows[k].iata == Some(iata))
    ensures forall i :: 0 <= i < k ==> rows[i].iata != Some(iata)
  {
    if rows == [] then 0
    else if rows[0].iata == Some(iata) then 0
    else 1 + FindIata(rows[1..], iata)
  }

  predicate MatchesOwn(row: Airline, own: Descriptor) {
    row.name == own.name && row.icao == own.icao && (row.iata.None? || row.iata == own.iata)
  }

  function FindOwn(rows: seq<Airline>, own: Descriptor): (k: nat)
    ensures k <= |rows| && (k < |rows| ==> MatchesOwn(rows[k], own))
    ensures forall i :: 0 <= i < k ==> !MatchesOwn(rows[i], own)
  {
    if rows == [] then 0
    else if MatchesOwn(rows[0], own) then 0
    else 1 + FindOwn(rows[1..], own)
  }

  function CountryOr(row: Airline, country: string): Option<string> {
    if row.country.Some? then row.country else Some(country)
  }

  function Updated(row: Airline, e: Entry): Airline {
    row.(name := e.name, isActive := e.isActive, country := CountryOr(row, e.country))
  }

  function Relabelled(row: Airline, e: Entry): Airline {
    Updated(row, e).(icao := Some(e.icao))
  }

  /** The row of an airline that no longer holds its code. */
  function Retired(row: Airline): Airline {
    row.(iata := None, isActive := false)
  }

  function Adopted(row: Airline, e: Entry): Airline {
    Relabelled(row, e).(iata := Some(e.iata))
  }

  function Inserted(e: Entry): Airline {
    Airline(Some(e.iata), Some(e.icao), e.name, Some(e.country), e.isActive)
  }

  predicate HasCodeless(rows: seq<Airline>, icao: Option<string>) {
    exists k :: 0 <= k < |rows| && !IsCode(rows[k].iata) && rows[k].icao == icao
  }

  function WithFreed(rows: seq<Airline>, h: nat): seq<Airline> {
    if h < |rows| then rows[h := Retired(rows[h])] else rows
  }

  function WithPrevious(rows: seq<Airline>, h: nat, e: Entry): seq<Airline>
    requires h < |rows|
  {
    if e.keepPrevious && IsCode(rows[h].icao) && !HasCodeless(rows, rows[h].icao)
    then rows + [Retired(rows[h])] else rows
  }

  function OwnIndex(rows: seq<Airline>, e: Entry): (k: nat)
    ensures k <= |rows|
  {
    if e.own.Some? then FindOwn(rows, e.own.value) else |rows|
  }

  /** The last branch: the airline's own row gets the code, or a new row is added. */
  function Placed(rows: seq<Airline>, e: Entry): seq<Airline> {
    var o := OwnIndex(rows, e);
    if o < |rows| then rows[o := Adopted(rows[o], e)] else rows + [Inserted(e)]
  }

  function ApplyEntry(rows: seq<Airline>, e: Entry): seq<Airline> {
    var h := FindIata(rows, e.iata);
    if h < |rows| && rows[h].icao == Some(e.icao) then rows[h := Updated(rows[h], e)]
    else if e.mode.Relabel? && h < |rows| then WithPrevious(rows, h, e)[h := Relabelled(rows[h], e)]
    else Placed(WithFreed(rows, h), e)
  }

  function ApplyEntries(rows: seq<Airline>, entries: seq<Entry>): seq<Airline> {
    if entries == [] then rows
    else ApplyEntry(ApplyEntries(rows, entries[..|entries| - 1]), entries[|entries| - 1])
  }

  function FindExact(rows: seq<Airline>, d: Descriptor): (k: nat)
    ensures k <= |rows| && (k < |rows| ==> Is(rows[k], d))
    ensures forall i :: 0 <= i < k ==> !Is(rows[i], d)
  {
    if rows == [] then 0 else if Is(rows[0], d) then 0 else 1 + FindExact(rows[1..], d)
  }

  predicate Is(row: Airline, d: Descriptor) {
    row.iata == d.iata && row.icao == d.icao && row.name == d.name
  }

  function Deactivate(rows: seq<Airline>, ds: seq<Descriptor>): (r: seq<Airline>)
    ensures |r| == |rows|
  {
    if ds == [] then rows
    else
      var before := Deactivate(rows, ds[..|ds| - 1]);
      var k := FindExact(before, ds[|ds| - 1]);
      if k < |before| then before[k := before[k].(isActive := false)] else before
  }

  /** The first row with its IATA code, or without one and the first of those with its ICAO code. */
  predicate IsKept(rows: seq<Airline>, k: nat)
    requires k < |rows|
  {
    if IsCode(rows[k].iata) then forall j :: 0 <= j < k ==> rows[j].iata != rows[k].iata
    else IsCode(rows[k].icao) && forall j :: 0 <= j < k ==> IsCode(rows[j].iata) || rows[j].icao != rows[k].icao
  }

  function Filtered(rows: seq<Airline>): seq<Airline> {
    if rows == [] then []
    else
      var n := |rows| - 1;
      Filtered(rows[..n]) + (if IsKept(rows, n) then [rows[n]] else [])
  }

  function Applied(input: seq<Airline>, file: CuratedFile): seq<Airline> {
    Filtered(Deactivate(ApplyEntries(input, file.airlines), file.deactivate))
  }

  // ---- the program, on objects -------------------------------------------------------------------

  class AirlineRow {
    var iata: Option<string>
    var icao: Option<string>
    var name: string
    var country: Option<string>
    var isActive: bool

    constructor (v: Airline)
      ensures Value() == v
    {
      iata, icao, name, country, isActive := v.iata, v.icao, v.name, v.country, v.isActive;
    }

    function Value(): Airline
      reads this
    {
      Airline(iata, icao, name, country, isActive)
    }
  }

  function Objects(rows: seq<AirlineRow>): set<AirlineRow> {
    set r | r in rows
  }

  predicate Different(rows: seq<AirlineRow>) {
    forall i, j :: 0 <= i < j < |rows| ==> rows[i] != rows[j]
  }

  predicate Shows(rows: seq<AirlineRow>, values: seq<Airline>)
    reads rows
  {
    |rows| == |values| && forall k :: 0 <= k < |rows| ==> rows[k].Value() == values[k]
  }

  method FindRowByIata(rows: seq<AirlineRow>, iata: string, ghost values: seq<Airline>) returns (k: nat)
    requires Shows(rows, values)
    ensures k == FindIata(values, iata)
  {
    k := 0;
    while k < |rows| && rows[k].iata != Some(iata)
      invariant 0 <= k <= |rows| && forall i :: 0 <= i < k ==> rows[i].Value().iata != Some(iata)
    {
      k := k + 1;
    }
  }

  method FindOwnRow(rows: seq<AirlineRow>, own: Descriptor, ghost values: seq<Airline>) returns (k: nat)
    requires Shows(rows, values)
    ensures k == FindOwn(values, own)
  {
    k := 0;
    while k < |rows| && !(rows[k].name == own.name && rows[k].icao == own.icao
                          && (rows[k].iata.None? || rows[k].iata == own.iata))
      invariant 0 <= k <= |rows| && forall i :: 0 <= i < k ==> !MatchesOwn(rows[i].Value(), own)
    {
      k := k + 1;
    }
  }

  method SomeCodeless(rows: seq<AirlineRow>, icao: Option<string>, ghost values: seq<Airline>) returns (found: bool)
    requires Shows(rows, values)
    ensures found == HasCodeless(values, icao)
  {
    found := false;
    for k := 0 to |rows|
      invariant found == HasCodeless(values[..k], icao)
    {
      assert values[..k + 1] == values[..k] + [values[k]];
      StillCodeless(values[..k], values[k], icao);
      if !IsCode(rows[k].iata) && rows[k].icao == icao {
        found := true;
      }
    }
    assert values[..|rows|] == values;
  }

  lemma StillCodeless(rows: seq<Airline>, row: Airline, icao: Option<string>)
    ensures HasCodeless(rows + [row], icao) <==> HasCodeless(rows, icao) || (!IsCode(row.iata) && row.icao == icao)
  {
    assert (rows + [row])[|rows|] == row;
    if HasCodeless(rows, icao) {
      var k :| 0 <= k < |rows| && !IsCode(rows[k].iata) && rows[k].icao == icao;
      assert (rows + [row])[k] == rows[k];
    }
  }

  /** The assignments of one curated entry to a row. */
  method AssignRow(rows: seq<AirlineRow>, k: nat, v: Airline, ghost values: seq<Airline>)
    requires Shows(rows, values) && Different(rows) && k < |rows|
    modifies rows[k]
    ensures Shows(rows, values[k := v])
  {
    var row := rows[k];
    row.iata := v.iata;
    row.icao := v.icao;
    row.name := v.name;
    row.country := v.country;
    row.isActive := v.isActive;
  }

  method PushRow(rows: seq<AirlineRow>, v: Airline, ghost values: seq<Airline>) returns (longer: seq<AirlineRow>)
    requires Shows(rows, values) && Different(rows)
    ensures Shows(longer, values + [v]) && Different(longer)
    ensures |longer| == |rows| + 1 && longer[..|rows|] == rows
    ensures fresh(Objects(longer) - Objects(rows))
  {
    var row := new AirlineRow(v);
    longer := rows + [row];
  }

  method RelabelRow(rows: seq<AirlineRow>, h: nat, e: Entry, ghost values: seq<Airline>)
    returns (after: seq<AirlineRow>)
    requires Shows(rows, values) && Different(rows) && h < |rows|
    modifies Objects(rows)
    ensures Shows(after, WithPrevious(values, h, e)[h := Relabelled(values[h], e)]) && Different(after)
    ensures fresh(Objects(after) - Objects(rows))
  {
    after := rows;
    var previous := rows[h].Value();
    ghost var now := values;
    if e.keepPrevious && IsCode(previous.icao) {
      var isKept := SomeCodeless(rows, previous.icao, values);
      if !isKept {
        after := PushRow(rows, Retired(previous), values);
        now := values + [Retired(previous)];
      }
    }
    AssignRow(after, h, Relabelled(previous, e), now);
  }

  method PlaceRow(rows: seq<AirlineRow>, e: Entry, ghost values: seq<Airline>) returns (after: seq<AirlineRow>)
    requires Shows(rows, values) && Different(rows)
    modifies Objects(rows)
    ensures Shows(after, Placed(values, e)) && Different(after)
    ensures fresh(Objects(after) - Objects(rows))
  {
    hide FindOwn, Inserted, Adopted;
    after := rows;
    var o := |rows|;
    if e.own.Some? {
      o := FindOwnRow(rows, e.own.value, values);
    }
    if o < |rows| {
      AssignRow(rows, o, Adopted(rows[o].Value(), e), values);
    } else {
      after := PushRow(rows, Inserted(e), values);
    }
  }

  /** The body of the loop over the curated entries. */
  method ApplyOne(rows: seq<AirlineRow>, e: Entry, ghost values: seq<Airline>) returns (after: seq<AirlineRow>)
    requires Shows(rows, values) && Different(rows)
    modifies Objects(rows)
    ensures Shows(after, ApplyEntry(values, e)) && Different(after)
    ensures fresh(Objects(after) - Objects(rows))
  {
    hide FindIata, Placed, WithPrevious, Relabelled, Updated, Retired;
    after := rows;
    var h := FindRowByIata(rows, e.iata, values);
    if h < |rows| && rows[h].icao == Some(e.icao) {
      AssignRow(rows, h, Updated(rows[h].Value(), e), values);
      return;
    }
    if e.mode == Relabel && h < |rows| {
      after := RelabelRow(rows, h, e, values);
      return;
    }
    if h < |rows| {
      AssignRow(rows, h, Retired(rows[h].Value()), values);
    }
    after := PlaceRow(rows, e, WithFreed(values, h));
  }

  method DeactivateOne(rows: seq<AirlineRow>, d: Descriptor, ghost values: seq<Airline>)
    requires Shows(rows, values) && Different(rows)
    modifies Objects(rows)
    ensures var k := FindExact(values, d);
            Shows(rows, if k < |values| then values[k := values[k].(isActive := false)] else values)
  {
    var k := 0;
    while k < |rows| && !(rows[k].iata == d.iata && rows[k].icao == d.icao && rows[k].name == d.name)
      invariant 0 <= k <= |rows| && forall i :: 0 <= i < k ==> !Is(values[i], d)
    {
      k := k + 1;
    }
    assert k == FindExact(values, d);
    if k < |rows| {
      rows[k].isActive := false;
    }
  }

  /** Which rows have been seen: their IATA codes, and the ICAO codes of those without one. */
  ghost predicate SeenCodes(rows: seq<Airline>, seenIata: set<string>, seenIcao: set<string>) {
    && (forall code :: code in seenIata <==> code != "" && exists k :: 0 <= k < |rows| && rows[k].iata == Some(code))
    && (forall code :: code in seenIcao <==>
          code != "" && exists k :: 0 <= k < |rows| && !IsCode(rows[k].iata) && rows[k].icao == Some(code))
  }

  lemma SeeOneMore(rows: seq<Airline>, row: Airline, seenIata: set<string>, seenIcao: set<string>)
    requires SeenCodes(rows, seenIata, seenIcao)
    ensures SeenCodes(rows + [row],
              if IsCode(row.iata) then seenIata + {row.iata.value} else seenIata,
              if !IsCode(row.iata) && IsCode(row.icao) then seenIcao + {row.icao.value} else seenIcao)
  {
    var all := rows + [row];
    assert all[|rows|] == row;
    forall code
      ensures (exists k :: 0 <= k < |all| && all[k].iata == Some(code)) <==>
                row.iata == Some(code)
                || exists k :: 0 <= k < |rows| && rows[k].iata == Some(code)
    {
      if k :| 0 <= k < |rows| && rows[k].iata == Some(code) {
        assert all[k].iata == Some(code);
      }
    }
    forall code
      ensures (exists k :: 0 <= k < |all| && !IsCode(all[k].iata) && all[k].icao == Some(code))
              <==> (!IsCode(row.iata) && row.icao == Some(code))
                   || (exists k :: 0 <= k < |rows| && !IsCode(rows[k].iata) && rows[k].icao == Some(code))
    {
      if k :| 0 <= k < |rows| && !IsCode(rows[k].iata) && rows[k].icao == Some(code) {
        assert !IsCode(all[k].iata) && all[k].icao == Some(code);
      }
    }
  }

  /** The test of the filter decides IsKept. */
  lemma KeptIsUnseen(rows: seq<Airline>, k: nat, seenIata: set<string>, seenIcao: set<string>)
    requires k < |rows| && SeenCodes(rows[..k], seenIata, seenIcao)
    ensures IsKept(rows, k) <==>
            if IsCode(rows[k].iata) then rows[k].iata.value !in seenIata
            else IsCode(rows[k].icao) && rows[k].icao.value !in seenIcao
  {
    var row, before := rows[k], rows[..k];
    if IsCode(row.iata) {
      if !IsKept(rows, k) {
        var j :| 0 <= j < k && rows[j].iata == row.iata;
        assert before[j].iata == Some(row.iata.value);
      }
    } else if IsCode(row.icao) {
      if !IsKept(rows, k) {
        var j :| 0 <= j < k && !IsCode(rows[j].iata) && rows[j].icao == row.icao;
        assert !IsCode(before[j].iata) && before[j].icao == Some(row.icao.value);
      }
    }
  }

  method FilterRows(rows: seq<AirlineRow>, ghost values: seq<Airline>) returns (kept: seq<AirlineRow>)
    requires Shows(rows, values)
    ensures Shows(kept, Filtered(values)) && Objects(kept) <= Objects(rows)
  {
    hide SeenCodes, IsKept;
    kept := [];
    var seenIata: set<string> := {};
    var seenIcao: set<string> := {};
    NoCodesSeen();
    for k := 0 to |rows|
      invariant Shows(kept, Filtered(values[..k])) && Objects(kept) <= Objects(rows)
      invariant SeenCodes(values[..k], seenIata, seenIcao)
    {
      var r := rows[k];
      assert values[..k + 1] == values[..k] + [values[k]];
      assert values[..k + 1][..k] == values[..k];
      KeptIsUnseen(values[..k + 1], k, seenIata, seenIcao);
      SeeOneMore(values[..k], values[k], seenIata, seenIcao);
      if IsCode(r.iata) {
        if r.iata.value !in seenIata {
          kept := kept + [r];
        }
        seenIata := seenIata + {r.iata.value};
      } else if IsCode(r.icao) {
        if r.icao.value !in seenIcao {
          kept := kept + [r];
        }
        seenIcao := seenIcao + {r.icao.value};
      }
    }
    assert values[..|rows|] == values;
  }

  lemma NoCodesSeen()
    ensures SeenCodes([], {}, {})
  {
  }

  method CopyRows(input: seq<AirlineRow>, ghost values: seq<Airline>) returns (rows: seq<AirlineRow>)
    requires Shows(input, values)
    ensures Shows(rows, values) && Different(rows) && fresh(Objects(rows))
  {
    rows := [];
    for i := 0 to |input|
      invariant Shows(input, values) && Shows(rows, values[..i]) && Different(rows) && fresh(Objects(rows))
    {
      assert values[..i + 1] == values[..i] + [values[i]];
      rows := PushRow(rows, input[i].Value(), values[..i]);
    }
    assert values[..|input|] == values;
  }

  method CurateRows(rows: seq<AirlineRow>, entries: seq<Entry>, ghost values: seq<Airline>)
    returns (after: seq<AirlineRow>)
    requires Shows(rows, values) && Different(rows)
    modifies Objects(rows)
    ensures Shows(after, ApplyEntries(values, entries)) && Different(after)
    ensures fresh(Objects(after) - Objects(rows))
  {
    hide ApplyEntry;
    after := rows;
    for i := 0 to |entries|
      invariant Shows(after, ApplyEntries(values, entries[..i])) && Different(after)
      invariant fresh(Objects(after) - Objects(rows))
    {
      assert entries[..i + 1][..i] == entries[..i];
      after := ApplyOne(after, entries[i], ApplyEntries(values, entries[..i]));
    }
    assert entries[..|entries|] == entries;
  }

  method DeactivateRows(rows: seq<AirlineRow>, ds: seq<Descriptor>, ghost values: seq<Airline>)
    requires Shows(rows, values) && Different(rows)
    modifies Objects(rows)
    ensures Shows(rows, Deactivate(values, ds))
  {
    hide FindExact;
    for i := 0 to |ds|
      invariant Shows(rows, Deactivate(values, ds[..i]))
    {
      assert ds[..i + 1][..i] == ds[..i];
      DeactivateOne(rows, ds[i], Deactivate(values, ds[..i]));
    }
    assert ds[..|ds|] == ds;
  }

  /** The rows returned are new objects, so the input's are as they were. */
  method ApplyCuratedAirlines(input: seq<AirlineRow>, file: CuratedFile, ghost values: seq<Airline>)
    returns (result: seq<AirlineRow>)
    requires Shows(input, values)
    ensures Shows(result, Applied(values, file)) && fresh(Objects(result))
  {
    hide Deactivate, ApplyEntries, Filtered;
    var rows := CopyRows(input, values);
    rows := CurateRows(rows, file.airlines, values);
    DeactivateRows(rows, file.deactivate, ApplyEntries(values, file.airlines));
    result := FilterRows(rows, Deactivate(ApplyEntries(values, file.airlines), file.deactivate));
  }

  // ---- what the file of corrections does ------------------------------------------------------------

  /** Entries with different codes, none of which takes for its own row one that an earlier entry has finished. */
  ghost predicate ValidEntries(entries: seq<Entry>) {
    DistinctCodes(entries) && LeavesFinished(entries)
  }

  predicate DistinctCodes(entries: seq<Entry>) {
    && (forall i :: 0 <= i < |entries| ==> entries[i].iata != "")
    && (forall i, j :: 0 <= i < j < |entries| ==> entries[i].iata != entries[j].iata)
  }

  predicate LeavesFinished(entries: seq<Entry>) {
    forall i, j :: 0 <= i < j < |entries| ==> entries[j].own != Some(Finish(entries[i]))
  }

  function Finish(e: Entry): Descriptor {
    Descriptor(e.name, Some(e.icao), Some(e.iata))
  }

  predicate Finished(row: Airline, e: Entry) {
    Is(row, Finish(e)) && row.country.Some? && row.isActive == e.isActive
  }

  /** An entry leaves alone every row that neither holds its code nor is described as its own. */
  lemma RowUntouched(rows: seq<Airline>, e: Entry, k: nat)
    requires k < |rows| && rows[k].iata != Some(e.iata) && (e.own.Some? ==> !MatchesOwn(rows[k], e.own.value))
    ensures k < |ApplyEntry(rows, e)| && ApplyEntry(rows, e)[k] == rows[k]
  {
    hide HasCodeless, MatchesOwn, Adopted, Inserted, Relabelled, Updated;
    assert FindIata(rows, e.iata) != k;
    var freed := WithFreed(rows, FindIata(rows, e.iata));
    assert freed[k] == rows[k] && OwnIndex(freed, e) != k;
  }

  /** The row has all that the entry says, and the country it had before, if any. */
  predicate HoldsEntry(row: Airline, e: Entry, before: Option<Airline>) {
    && row.iata == Some(e.iata) && row.icao == Some(e.icao) && row.name == e.name && row.isActive == e.isActive
    && row.country == (if before.Some? && before.value.country.Some? then before.value.country else Some(e.country))
  }

  /** An airline that has lost its IATA code: all else is kept, but it is inactive. */
  predicate IsRetired(row: Airline, before: Airline) {
    && row.iata.None? && !row.isActive
    && row.icao == before.icao && row.name == before.name && row.country == before.country
  }

  /** The entry is for the airline that holds its code already, or renames that airline. */
  predicate StaysInPlace(rows: seq<Airline>, e: Entry, h: nat) {
    h < |rows| && (rows[h].icao == Some(e.icao) || e.mode.Relabel?)
  }

  /** The previous identity of a renamed airline has to be listed by itself. */
  predicate AddsPrevious(rows: seq<Airline>, e: Entry, h: nat)
    requires h < |rows|
  {
    && rows[h].icao != Some(e.icao) && e.keepPrevious && IsCode(rows[h].icao)
    && forall k :: 0 <= k < |rows| && rows[k].icao == rows[h].icao ==> IsCode(rows[k].iata)
  }

  /** All rows after an entry that stays in place: its own, perhaps one more for the previous identity, and the rest. */
  lemma EntryInPlace(rows: seq<Airline>, e: Entry)
    requires StaysInPlace(rows, e, FindIata(rows, e.iata))
    ensures var h, after := FindIata(rows, e.iata), ApplyEntry(rows, e);
            && |after| == |rows| + (if AddsPrevious(rows, e, h) then 1 else 0)
            && HoldsEntry(after[h], e, Some(rows[h]))
            && (AddsPrevious(rows, e, h) ==> IsRetired(after[|rows|], rows[h]))
            && forall k :: 0 <= k < |rows| && k != h ==> after[k] == rows[k]
  {
    hide FindIata, FindOwn;
  }

  /** The row is the one the entry describes as the airline's own; the holder at `h` has been freed of the code. */
  predicate IsOwnRow(rows: seq<Airline>, e: Entry, h: nat, k: nat)
    requires k < |rows|
  {
    && e.own.Some? && rows[k].name == e.own.value.name && rows[k].icao == e.own.value.icao
    && (rows[k].iata.None? || k == h || rows[k].iata == e.own.value.iata)
  }

  /** The entry goes to the first of its own rows, or to a new row if there is none. */
  predicate IsPlace(rows: seq<Airline>, e: Entry, h: nat, p: nat) {
    && p <= |rows| && (p < |rows| ==> IsOwnRow(rows, e, h, p))
    && forall k :: 0 <= k < p ==> !IsOwnRow(rows, e, h, k)
  }

  /** All rows after an entry that takes its code from whoever held it. */
  lemma EntryElsewhere(rows: seq<Airline>, e: Entry, p: nat)
    requires !StaysInPlace(rows, e, FindIata(rows, e.iata)) && IsPlace(rows, e, FindIata(rows, e.iata), p)
    ensures var h, after := FindIata(rows, e.iata), ApplyEntry(rows, e);
            && |after| == |rows| + (if p == |rows| then 1 else 0)
            && HoldsEntry(after[p], e, if p < |rows| then Some(rows[p]) else None)
            && (h < |rows| && h != p ==> IsRetired(after[h], rows[h]))
            && forall k :: 0 <= k < |rows| && k != h && k != p ==> after[k] == rows[k]
  {
    hide FindIata, FindOwn;
    var h := FindIata(rows, e.iata);
    var freed := WithFreed(rows, h);
    forall k: nat | k < |rows|
      ensures e.own.Some? ==> (MatchesOwn(freed[k], e.own.value) <==> IsOwnRow(rows, e, h, k))
    {
    }
    var o := OwnIndex(freed, e);
    assert o < |rows| ==> IsOwnRow(rows, e, h, o);
    assert p < |rows| ==> MatchesOwn(freed[p], e.own.value);
  }

  /** There is always one such place. */
  lemma {:induction false} PlaceExists(rows: seq<Airline>, e: Entry, h: nat, p: nat) returns (place: nat)
    requires p <= |rows| && forall k :: 0 <= k < p ==> !IsOwnRow(rows, e, h, k)
    ensures IsPlace(rows, e, h, place)
    decreases |rows| - p
  {
    if p == |rows| || IsOwnRow(rows, e, h, p) {
      place := p;
    } else {
      place := PlaceExists(rows, e, h, p + 1);
    }
  }

  /** The entry takes the code from another airline, and that airline is not described as the entry's own. */
  predicate Displaces(rows: seq<Airline>, e: Entry, h: nat) {
    && h == FindIata(rows, e.iata) && h < |rows| && rows[h].icao != Some(e.icao) && !e.mode.Relabel?
    && !IsOwnRow(rows, e, h, h)
  }

  /** An airline that loses its code to another keeps its place, name, ICAO code and country, and becomes inactive. */
  lemma HolderIsRetired(rows: seq<Airline>, e: Entry, h: nat)
    requires Displaces(rows, e, h)
    ensures h < |ApplyEntry(rows, e)| && IsRetired(ApplyEntry(rows, e)[h], rows[h])
  {
    var p := PlaceExists(rows, e, h, 0);
    EntryElsewhere(rows, e, p);
  }

  /** No later entry describes the row as its own. */
  predicate LeftAlone(row: Airline, entries: seq<Entry>) {
    forall i :: 0 <= i < |entries| ==>
      row.iata != Some(entries[i].iata)
      && (entries[i].own.Some? ==> !MatchesOwn(row, entries[i].own.value))
  }

  lemma {:induction false} EntriesOneByOne(rows: seq<Airline>, entries: seq<Entry>, j: nat)
    requires j <= |entries|
    ensures ApplyEntries(rows, entries) == ApplyEntries(ApplyEntries(rows, entries[..j]), entries[j..])
    decreases |entries|
  {
    hide ApplyEntry;
    if j == |entries| {
      assert entries[..j] == entries;
    } else {
      var n := |entries| - 1;
      EntriesOneByOne(rows, entries[..n], j);
      assert entries[..n][..j] == entries[..j] && entries[..n][j..] == entries[j..][..n - j];
      assert entries[j..][n - j] == entries[n];
    }
  }

  /** What an entry leaves of a row that no later entry touches is what is left of it after the whole file. */
  lemma RowAfterFile(input: seq<Airline>, file: CuratedFile, j: nat, k: nat)
    requires j < |file.airlines|
    requires var after := ApplyEntry(ApplyEntries(input, file.airlines[..j]), file.airlines[j]);
             k < |after| && LeftAlone(after[k], file.airlines[j + 1..])
    ensures var after := ApplyEntry(ApplyEntries(input, file.airlines[..j]), file.airlines[j]);
            var rows := ApplyEntries(input, file.airlines);
            && k < |rows| && rows[k] == after[k]
            && (IsKept(rows, k) ==>
                  rows[k].(isActive := rows[k].isActive && !IsNamed(rows[k], file.deactivate)) in Applied(input, file))
  {
    hide ApplyEntry, IsKept, Filtered, Deactivate, IsNamed, MatchesOwn;
    var entries := file.airlines;
    OneEntryMore(input, entries, j);
    EntriesOneByOne(input, entries, j + 1);
    UnmentionedRowsStay(ApplyEntries(input, entries[..j + 1]), entries[j + 1..], k);
    if IsKept(ApplyEntries(input, entries), k) {
      RowOfResult(ApplyEntries(input, entries), file.deactivate, k);
    }
  }

  /**
   * In the result of the whole file an airline that lost its code is listed, inactive, under its own ICAO code and
   * name, unless a later entry takes its row or an earlier row without IATA code has that ICAO code.
   */
  lemma DisplacedInResult(input: seq<Airline>, file: CuratedFile, j: nat, h: nat)
    requires j < |file.airlines|
    requires Displaces(ApplyEntries(input, file.airlines[..j]), file.airlines[j], h)
    requires var gone := ApplyEntries(input, file.airlines[..j])[h];
             LeftAlone(Airline(None, gone.icao, gone.name, gone.country, false), file.airlines[j + 1..])
    ensures var gone := ApplyEntries(input, file.airlines[..j])[h];
            var rows := ApplyEntries(input, file.airlines);
            && h < |rows|
            && (IsCode(gone.icao)
                && (forall k :: 0 <= k < h && rows[k].icao == gone.icao ==> IsCode(rows[k].iata)) ==>
                  Airline(None, gone.icao, gone.name, gone.country, false) in Applied(input, file))
  {
    hide ApplyEntry, ApplyEntries, Applied, LeftAlone, Displaces;
    var before := ApplyEntries(input, file.airlines[..j]);
    HolderIsRetired(before, file.airlines[j], h);
    RowAfterFile(input, file, j, h);
  }

  /** So is the previous identity of an airline that was renamed, if its entry asks for that. */
  lemma PreviousInResult(input: seq<Airline>, file: CuratedFile, j: nat)
    requires j < |file.airlines|
    requires var before, e := ApplyEntries(input, file.airlines[..j]), file.airlines[j];
             var h := FindIata(before, e.iata);
             && StaysInPlace(before, e, h) && AddsPrevious(before, e, h)
             && LeftAlone(Airline(None, before[h].icao, before[h].name, before[h].country, false),
                          file.airlines[j + 1..])
    ensures var before, e := ApplyEntries(input, file.airlines[..j]), file.airlines[j];
            var gone := before[FindIata(before, e.iata)];
            var rows := ApplyEntries(input, file.airlines);
            && |before| < |rows|
            && ((forall k :: 0 <= k < |before| && rows[k].icao == gone.icao ==> IsCode(rows[k].iata)) ==>
                  Airline(None, gone.icao, gone.name, gone.country, false) in Applied(input, file))
  {
    hide ApplyEntry, ApplyEntries, Applied, LeftAlone, FindIata, StaysInPlace;
    var before := ApplyEntries(input, file.airlines[..j]);
    EntryInPlace(before, file.airlines[j]);
    RowAfterFile(input, file, j, |before|);
  }

  /** An airline that loses its IATA code to another is still listed under its ICAO code. */
  lemma DisplacedAirlineIsKept(rows: seq<Airline>, e: Entry)
    requires e.iata != ""
    requires var h := FindIata(rows, e.iata);
             && h < |rows| && rows[h].icao != Some(e.icao) && IsCode(rows[h].icao)
             && (if e.mode.Relabel? then e.keepPrevious else e.own.Some? ==> !MatchesOwn(Retired(rows[h]), e.own.value))
    ensures HasCodeless(ApplyEntry(rows, e), rows[FindIata(rows, e.iata)].icao)
  {
    hide HasCodeless, FindIata, FindOwn, MatchesOwn, Relabelled, Updated, Adopted, Inserted;
    var h := FindIata(rows, e.iata);
    if e.mode.Relabel? {
      RelabelKeepsPrevious(rows, h, e);
    } else {
      CodelessAt(ApplyEntry(rows, e), h);
    }
  }

  lemma CodelessAt(rows: seq<Airline>, k: nat)
    requires k < |rows| && !IsCode(rows[k].iata)
    ensures HasCodeless(rows, rows[k].icao)
  {
  }

  lemma RelabelKeepsPrevious(rows: seq<Airline>, h: nat, e: Entry)
    requires h < |rows| && rows[h].iata == Some(e.iata) && e.iata != "" && e.keepPrevious && IsCode(rows[h].icao)
    ensures HasCodeless(WithPrevious(rows, h, e)[h := Relabelled(rows[h], e)], rows[h].icao)
  {
    var after, icao := WithPrevious(rows, h, e)[h := Relabelled(rows[h], e)], rows[h].icao;
    if HasCodeless(rows, icao) {
      var k :| 0 <= k < |rows| && !IsCode(rows[k].iata) && rows[k].icao == icao;
      CodelessAt(after, k);
    } else {
      CodelessAt(after, |rows|);
    }
  }

  /** A code that no row holds is given to one row. */
  lemma PlacedIsUnique(rows: seq<Airline>, e: Entry)
    requires UniqueIata(rows) && e.iata != "" && forall k :: 0 <= k < |rows| ==> rows[k].iata != Some(e.iata)
    ensures UniqueIata(Placed(rows, e))
    ensures HasFinished(Placed(rows, e), e)
  {
    hide OwnIndex;
    var o := OwnIndex(rows, e);
    assert Finished(Placed(rows, e)[o], e);
  }

  lemma FreedIsUnique(rows: seq<Airline>, e: Entry)
    requires UniqueIata(rows) && e.iata != ""
    ensures var freed := WithFreed(rows, FindIata(rows, e.iata));
            UniqueIata(freed) && forall k :: 0 <= k < |freed| ==> freed[k].iata != Some(e.iata)
  {
    var h := FindIata(rows, e.iata);
    var freed := WithFreed(rows, h);
    forall k | 0 <= k < |freed| ensures freed[k].iata != Some(e.iata) {
      assert k != h ==> freed[k] == rows[k];
    }
  }

  lemma RelabelledIsUnique(rows: seq<Airline>, e: Entry, h: nat)
    requires UniqueIata(rows) && h < |rows| && rows[h].iata == Some(e.iata)
    ensures var after := WithPrevious(rows, h, e)[h := Relabelled(rows[h], e)];
            UniqueIata(after) && HasFinished(after, e)
  {
    hide HasCodeless;
    assert Finished(WithPrevious(rows, h, e)[h := Relabelled(rows[h], e)][h], e);
  }

  lemma UpdatedIsUnique(rows: seq<Airline>, e: Entry, h: nat)
    requires UniqueIata(rows) && h < |rows| && rows[h].iata == Some(e.iata) && rows[h].icao == Some(e.icao)
    ensures var after := rows[h := Updated(rows[h], e)];
            UniqueIata(after) && HasFinished(after, e)
  {
    assert Finished(rows[h := Updated(rows[h], e)][h], e);
  }

  /**
   * After an entry IATA codes are unique still, and the entry's code is on a row with its name, ICAO code and status.
   */
  lemma EntrySettles(rows: seq<Airline>, e: Entry)
    requires UniqueIata(rows) && e.iata != ""
    ensures UniqueIata(ApplyEntry(rows, e))
    ensures HasFinished(ApplyEntry(rows, e), e)
  {
    hide Placed, WithPrevious, WithFreed, Relabelled, Updated, FindIata, UniqueIata, HasFinished;
    var h := FindIata(rows, e.iata);
    if h < |rows| && rows[h].icao == Some(e.icao) {
      UpdatedIsUnique(rows, e, h);
    } else if e.mode.Relabel? && h < |rows| {
      RelabelledIsUnique(rows, e, h);
    } else {
      FreedIsUnique(rows, e);
      PlacedIsUnique(WithFreed(rows, h), e);
    }
  }

  lemma {:induction false} EntriesSettle(rows: seq<Airline>, entries: seq<Entry>)
    requires UniqueIata(rows) && ValidEntries(entries)
    ensures UniqueIata(ApplyEntries(rows, entries))
    ensures forall j :: 0 <= j < |entries| ==> HasFinished(ApplyEntries(rows, entries), entries[j])
  {
    hide ApplyEntry, Finished, MatchesOwn, UniqueIata;
    if entries != [] {
      var n := |entries| - 1;
      var before, e := ApplyEntries(rows, entries[..n]), entries[n];
      EntriesSettle(rows, entries[..n]);
      EntrySettles(before, e);
      forall j | 0 <= j < n ensures HasFinished(ApplyEntry(before, e), entries[j]) {
        assert entries[..n][j] == entries[j] && HasFinished(before, entries[j]);
        var k :| 0 <= k < |before| && Finished(before[k], entries[j]);
        FinishedIsSafe(before[k], entries[j], e);
        RowUntouched(before, e, k);
      }
    }
  }

  ghost predicate HasFinished(rows: seq<Airline>, e: Entry) {
    exists k :: 0 <= k < |rows| && Finished(rows[k], e)
  }

  lemma FinishedIsSafe(row: Airline, earlier: Entry, e: Entry)
    requires Finished(row, earlier) && earlier.iata != e.iata && e.own != Some(Finish(earlier))
    ensures row.iata != Some(e.iata) && (e.own.Some? ==> !MatchesOwn(row, e.own.value))
  {
  }

  /** A row whose code no entry has, and which no entry describes as its own, comes through the entries unchanged. */
  lemma {:induction false} UnmentionedRowsStay(rows: seq<Airline>, entries: seq<Entry>, k: nat)
    requires k < |rows|
    requires forall j :: 0 <= j < |entries| ==>
               rows[k].iata != Some(entries[j].iata)
                   && (entries[j].own.Some? ==> !MatchesOwn(rows[k], entries[j].own.value))
    ensures k < |ApplyEntries(rows, entries)| && ApplyEntries(rows, entries)[k] == rows[k]
  {
    hide ApplyEntry, MatchesOwn;
    if entries != [] {
      var n := |entries| - 1;
      UnmentionedRowsStay(rows, entries[..n], k);
      RowUntouched(ApplyEntries(rows, entries[..n]), entries[n], k);
    }
  }

  // ---- deactivation and the final filter ----------------------------------------------------------------

  predicate IsNamed(row: Airline, ds: seq<Descriptor>) {
    exists i :: 0 <= i < |ds| && Is(row, ds[i])
  }

  /** Some descriptor finds this row first. */
  predicate IsHit(rows: seq<Airline>, ds: seq<Descriptor>, k: nat) {
    exists i :: 0 <= i < |ds| && FindExact(rows, ds[i]) == k
  }

  lemma SameIdentityFinds(rows: seq<Airline>, others: seq<Airline>, d: Descriptor)
    requires |rows| == |others| && forall k :: 0 <= k < |rows| ==> others[k] == rows[k].(isActive := others[k].isActive)
    ensures FindExact(others, d) == FindExact(rows, d)
  {
    var k, m := FindExact(rows, d), FindExact(others, d);
    assert forall i :: 0 <= i < |rows| ==> (Is(rows[i], d) <==> Is(others[i], d));
  }

  /** Deactivation flips the rows that are found, and nothing else. */
  lemma {:induction false} DeactivateFlips(rows: seq<Airline>, ds: seq<Descriptor>, k: nat)
    requires k < |rows|
    ensures Deactivate(rows, ds)[k] == rows[k].(isActive := rows[k].isActive && !IsHit(rows, ds, k))
  {
    hide FindExact;
    if ds != [] {
      var n := |ds| - 1;
      forall m: nat | m < |rows|
        ensures Deactivate(rows, ds[..n])[m] == rows[m].(isActive := Deactivate(rows, ds[..n])[m].isActive)
      {
        DeactivateFlips(rows, ds[..n], m);
      }
      DeactivateFlips(rows, ds[..n], k);
      SameIdentityFinds(rows, Deactivate(rows, ds[..n]), ds[n]);
      HitByLast(rows, ds, k);
    }
  }

  lemma HitByLast(rows: seq<Airline>, ds: seq<Descriptor>, k: nat)
    requires ds != []
    ensures IsHit(rows, ds, k) <==> IsHit(rows, ds[..|ds| - 1], k) || FindExact(rows, ds[|ds| - 1]) == k
  {
    hide FindExact;
    var n := |ds| - 1;
    if IsHit(rows, ds[..n], k) {
      var i :| 0 <= i < n && FindExact(rows, ds[..n][i]) == k;
      assert FindExact(rows, ds[i]) == k;
    }
    if i :| 0 <= i < n && FindExact(rows, ds[i]) == k {
      assert FindExact(rows, ds[..n][i]) == k;
    }
  }

  /** A row the filter keeps is found by every descriptor that names it. */
  lemma KeptIsFound(rows: seq<Airline>, k: nat, ds: seq<Descriptor>)
    requires k < |rows| && IsKept(rows, k)
    ensures IsHit(rows, ds, k) <==> IsNamed(rows[k], ds)
  {
    if IsNamed(rows[k], ds) {
      var i :| 0 <= i < |ds| && Is(rows[k], ds[i]);
      FoundFirst(rows, k, ds[i]);
    }
    if IsHit(rows, ds, k) {
      var i :| 0 <= i < |ds| && FindExact(rows, ds[i]) == k;
      assert Is(rows[k], ds[i]);
    }
  }

  lemma FoundFirst(rows: seq<Airline>, k: nat, d: Descriptor)
    requires k < |rows| && IsKept(rows, k) && Is(rows[k], d)
    ensures FindExact(rows, d) == k
  {
    forall m | 0 <= m < k ensures !Is(rows[m], d) {
    }
  }

  predicate UniqueIcao(rows: seq<Airline>) {
    forall i, j :: 0 <= i < j < |rows| && !IsCode(rows[i].iata) && !IsCode(rows[j].iata) ==>
      rows[i].icao != rows[j].icao
  }

  predicate AllCoded(rows: seq<Airline>) {
    forall k :: 0 <= k < |rows| ==> IsCode(rows[k].iata) || IsCode(rows[k].icao)
  }

  /** The filter keeps exactly the rows it should. */
  lemma {:induction false} FilteredRows(rows: seq<Airline>, row: Airline)
    ensures row in Filtered(rows) <==> exists k :: 0 <= k < |rows| && rows[k] == row && IsKept(rows, k)
  {
    hide IsKept;
    if rows != [] {
      var n := |rows| - 1;
      FilteredRows(rows[..n], row);
      forall k: nat | k < n ensures IsKept(rows[..n], k) <==> IsKept(rows, k) {
        KeptInPrefix(rows, n, k);
      }
      if row in Filtered(rows[..n]) {
        var k :| 0 <= k < n && rows[..n][k] == row && IsKept(rows[..n], k);
        assert rows[k] == row && IsKept(rows, k);
      }
      if k :| 0 <= k < n && rows[k] == row && IsKept(rows, k) {
        assert rows[..n][k] == row && IsKept(rows[..n], k);
      }
    }
  }

  /** And in their order: what the first rows leave comes first. */
  lemma {:induction false} FilteredInOrder(rows: seq<Airline>, n: nat)
    requires n <= |rows|
    ensures Filtered(rows[..n]) <= Filtered(rows)
  {
    hide IsKept;
    if n < |rows| {
      var m := |rows| - 1;
      FilteredInOrder(rows[..m], n);
      assert rows[..m][..n] == rows[..n];
    } else {
      assert rows[..n] == rows;
    }
  }

  lemma KeptInPrefix(rows: seq<Airline>, n: nat, k: nat)
    requires k < n <= |rows|
    ensures IsKept(rows[..n], k) <==> IsKept(rows, k)
  {
    if IsKept(rows[..n], k) {
      forall j | 0 <= j < k ensures rows[j] == rows[..n][j] {
      }
    }
  }

  /**
   * What the filter leaves has unique IATA codes, unique ICAO codes among the rows without one, and a code on each row.
   */
  lemma {:induction false} FilteredIsUnique(rows: seq<Airline>)
    ensures UniqueIata(Filtered(rows)) && UniqueIcao(Filtered(rows)) && AllCoded(Filtered(rows))
  {
    if rows != [] {
      var n := |rows| - 1;
      FilteredIsUnique(rows[..n]);
      if IsKept(rows, n) {
        forall i | 0 <= i < |Filtered(rows[..n])|
          ensures exists j :: 0 <= j < n && rows[j] == Filtered(rows[..n])[i]
        {
          FilteredRows(rows[..n], Filtered(rows[..n])[i]);
          var j :| 0 <= j < n && rows[..n][j] == Filtered(rows[..n])[i];
          assert rows[j] == Filtered(rows[..n])[i];
        }
        LastIsNew(Filtered(rows[..n]), rows, n);
      }
    }
  }

  lemma LastIsNew(kept: seq<Airline>, rows: seq<Airline>, n: nat)
    requires n < |rows| && IsKept(rows, n) && UniqueIata(kept) && UniqueIcao(kept) && AllCoded(kept)
    requires forall i :: 0 <= i < |kept| ==> exists j :: 0 <= j < n && rows[j] == kept[i]
    ensures UniqueIata(kept + [rows[n]]) && UniqueIcao(kept + [rows[n]]) && AllCoded(kept + [rows[n]])
  {
    forall i | 0 <= i < |kept|
      ensures IsCode(rows[n].iata) ==> kept[i].iata != rows[n].iata
      ensures !IsCode(rows[n].iata) ==> IsCode(kept[i].iata) || kept[i].icao != rows[n].icao
    {
      var j :| 0 <= j < n && rows[j] == kept[i];
    }
  }

  /** On such rows the filter changes nothing. */
  lemma UniqueIsKept(rows: seq<Airline>, k: nat)
    requires k < |rows| && UniqueIata(rows) && UniqueIcao(rows) && AllCoded(rows)
    ensures IsKept(rows, k)
  {
  }

  lemma {:induction false} FilterOfUnique(rows: seq<Airline>)
    requires UniqueIata(rows) && UniqueIcao(rows) && AllCoded(rows)
    ensures Filtered(rows) == rows
  {
    if rows != [] {
      var n := |rows| - 1;
      FilterOfUnique(rows[..n]);
      UniqueIsKept(rows, n);
    }
  }

  // ---- the whole file -------------------------------------------------------------------------------------

  ghost predicate HasRowOf(rows: seq<Airline>, e: Entry) {
    exists k :: 0 <= k < |rows| && Is(rows[k], Finish(e))
  }

  /** Rows on which the file has nothing more to do. */
  ghost predicate Settled(rows: seq<Airline>, file: CuratedFile) {
    && UniqueIata(rows) && UniqueIcao(rows) && AllCoded(rows)
    && (forall j :: 0 <= j < |file.airlines| ==> IsSettled(rows, file.airlines[j], file.deactivate))
    && (forall k :: 0 <= k < |rows| && IsNamed(rows[k], file.deactivate) ==> !rows[k].isActive)
  }

  ghost predicate IsSettled(rows: seq<Airline>, e: Entry, ds: seq<Descriptor>) {
    exists k :: 0 <= k < |rows| && SettledRow(rows[k], e, ds)
  }

  predicate SettledRow(row: Airline, e: Entry, ds: seq<Descriptor>) {
    Is(row, Finish(e)) && row.country.Some? && row.isActive == (e.isActive && !IsNamed(row, ds))
  }

  /** The row of the result that comes from a row the filter keeps. */
  lemma RowOfResult(rows: seq<Airline>, ds: seq<Descriptor>, k: nat)
    requires k < |rows| && IsKept(rows, k)
    ensures rows[k].(isActive := rows[k].isActive && !IsNamed(rows[k], ds)) in Filtered(Deactivate(rows, ds))
  {
    hide IsNamed, IsHit, Filtered, Deactivate;
    var after := Deactivate(rows, ds);
    DeactivateFlips(rows, ds, k);
    KeptIsFound(rows, k, ds);
    KeptAfterFlips(rows, ds, k);
    FilteredRows(after, after[k]);
  }

  lemma KeptAfterFlips(rows: seq<Airline>, ds: seq<Descriptor>, k: nat)
    requires k < |rows|
    ensures IsKept(Deactivate(rows, ds), k) <==> IsKept(rows, k)
  {
    hide IsHit;
    forall m: nat | m < |rows|
      ensures Deactivate(rows, ds)[m].iata == rows[m].iata && Deactivate(rows, ds)[m].icao == rows[m].icao
    {
      DeactivateFlips(rows, ds, m);
    }
  }

  lemma NamedIgnoresActive(row: Airline, isActive: bool, ds: seq<Descriptor>)
    ensures IsNamed(row.(isActive := isActive), ds) <==> IsNamed(row, ds)
  {
    assert forall d :: Is(row.(isActive := isActive), d) <==> Is(row, d);
    if IsNamed(row, ds) {
      var i :| 0 <= i < |ds| && Is(row, ds[i]);
      assert Is(row.(isActive := isActive), ds[i]);
    }
  }

  lemma ResultIsInactiveIfNamed(rows: seq<Airline>, ds: seq<Descriptor>, row: Airline)
    requires row in Filtered(Deactivate(rows, ds)) && IsNamed(row, ds)
    ensures !row.isActive
  {
    hide IsNamed, IsHit, Filtered, Deactivate;
    var after := Deactivate(rows, ds);
    FilteredRows(after, row);
    var k :| 0 <= k < |after| && after[k] == row && IsKept(after, k);
    DeactivateFlips(rows, ds, k);
    KeptAfterFlips(rows, ds, k);
    KeptIsFound(rows, k, ds);
    NamedIgnoresActive(rows[k], row.isActive, ds);
  }

  /**
   * Applying the file to rows with different IATA codes: codes are unique in the result, each entry's code is on a row
   * with its ICAO code and name (one row, codes being unique), and every row named for deactivation is inactive.
   */
  lemma ResultIsSettled(input: seq<Airline>, file: CuratedFile)
    requires UniqueIata(input) && ValidEntries(file.airlines)
    ensures Settled(Applied(input, file), file)
  {
    hide UniqueIata, UniqueIcao, AllCoded, Filtered, Deactivate, ApplyEntries, IsNamed, Finished;
    var rows := ApplyEntries(input, file.airlines);
    var result := Applied(input, file);
    EntriesSettle(input, file.airlines);
    FilteredIsUnique(Deactivate(rows, file.deactivate));
    forall j | 0 <= j < |file.airlines| ensures IsSettled(result, file.airlines[j], file.deactivate) {
      assert HasFinished(rows, file.airlines[j]);
      var k :| 0 <= k < |rows| && Finished(rows[k], file.airlines[j]);
      EntryIsInResult(rows, file, j, k);
    }
    forall k | 0 <= k < |result| && IsNamed(result[k], file.deactivate) ensures !result[k].isActive {
      ResultIsInactiveIfNamed(rows, file.deactivate, result[k]);
    }
  }

  lemma EntryIsInResult(rows: seq<Airline>, file: CuratedFile, j: nat, k: nat)
    requires UniqueIata(rows) && j < |file.airlines| && file.airlines[j].iata != "" && k < |rows|
             && Finished(rows[k], file.airlines[j])
    ensures IsSettled(Filtered(Deactivate(rows, file.deactivate)), file.airlines[j], file.deactivate)
  {
    hide Filtered, Deactivate, IsNamed;
    var e, ds := file.airlines[j], file.deactivate;
    var row := rows[k].(isActive := rows[k].isActive && !IsNamed(rows[k], ds));
    RowOfResult(rows, ds, k);
    NamedIgnoresActive(rows[k], row.isActive, ds);
    assert SettledRow(row, e, ds);
    var result := Filtered(Deactivate(rows, ds));
    var m :| 0 <= m < |result| && result[m] == row;
  }

  /** Exactly one row of the result has the code of an entry. */
  lemma OneRowPerEntry(input: seq<Airline>, file: CuratedFile, j: nat)
    requires UniqueIata(input) && ValidEntries(file.airlines) && j < |file.airlines|
    ensures var result, e := Applied(input, file), file.airlines[j];
            exists k :: 0 <= k < |result| && Is(result[k], Finish(e))
                     && forall m :: 0 <= m < |result| && result[m].iata == Some(e.iata) ==> m == k
  {
    hide Applied, IsNamed, UniqueIcao, AllCoded;
    ResultIsSettled(input, file);
    var result, e := Applied(input, file), file.airlines[j];
    assert IsSettled(result, e, file.deactivate);
    var k :| 0 <= k < |result| && SettledRow(result[k], e, file.deactivate);
    assert IsCode(result[k].iata);
    forall m | 0 <= m < |result| && result[m].iata == Some(e.iata) ensures m == k {
    }
  }

  /** The active flag a row has after the entries, when each finds its own row. */
  function ActiveAfter(row: Airline, entries: seq<Entry>): bool {
    if entries == [] then row.isActive
    else if row.iata == Some(entries[|entries| - 1].iata) then entries[|entries| - 1].isActive
    else ActiveAfter(row, entries[..|entries| - 1])
  }

  /** Rows that hold every entry already only have their active flags set. */
  lemma {:induction false} ReapplyEntries(rows: seq<Airline>, entries: seq<Entry>, ds: seq<Descriptor>)
    requires UniqueIata(rows)
    requires forall j :: 0 <= j < |entries| ==> entries[j].iata != "" && IsSettled(rows, entries[j], ds)
    ensures |ApplyEntries(rows, entries)| == |rows|
    ensures forall k :: 0 <= k < |rows| ==>
            ApplyEntries(rows, entries)[k] == rows[k].(isActive := ActiveAfter(rows[k], entries))
  {
    hide ApplyEntry, IsNamed, UniqueIata;
    if entries != [] {
      var n := |entries| - 1;
      ReapplyEntries(rows, entries[..n], ds);
      var before := ApplyEntries(rows, entries[..n]);
      assert IsSettled(rows, entries[n], ds);
      var h :| 0 <= h < |rows| && SettledRow(rows[h], entries[n], ds);
      SameIata(rows, before);
      ReapplyOne(before, entries[n], h);
      forall k: nat | k < |rows|
        ensures ApplyEntries(rows, entries)[k] == rows[k].(isActive := ActiveAfter(rows[k], entries))
      {
        assert before[k] == rows[k].(isActive := ActiveAfter(rows[k], entries[..n]));
        if k != h {
          OnlyHolder(rows, h, k);
        }
      }
    }
  }

  lemma SameIata(rows: seq<Airline>, others: seq<Airline>)
    requires UniqueIata(rows) && |others| == |rows| && forall k :: 0 <= k < |rows| ==> others[k].iata == rows[k].iata
    ensures UniqueIata(others)
  {
  }

  lemma OnlyHolder(rows: seq<Airline>, h: nat, k: nat)
    requires UniqueIata(rows) && h < |rows| && k < |rows| && k != h && IsCode(rows[h].iata)
    ensures rows[k].iata != rows[h].iata
  {
    assert h < k || k < h;
  }

  lemma ReapplyOne(rows: seq<Airline>, e: Entry, h: nat)
    requires UniqueIata(rows) && e.iata != "" && h < |rows| && Is(rows[h], Finish(e)) && rows[h].country.Some?
    ensures ApplyEntry(rows, e) == rows[h := rows[h].(isActive := e.isActive)]
  {
    var k := FindIata(rows, e.iata);
    if k != h {
      OnlyHolder(rows, h, k);
    }
  }

  lemma {:induction false} ActiveIsSet(row: Airline, entries: seq<Entry>, j: nat)
    requires forall a, b :: 0 <= a < b < |entries| ==> entries[a].iata != entries[b].iata
    requires j < |entries| && row.iata == Some(entries[j].iata)
    ensures ActiveAfter(row, entries) == entries[j].isActive
  {
    var n := |entries| - 1;
    if j < n {
      ActiveIsSet(row, entries[..n], j);
    }
  }

  lemma {:induction false} ActiveIsLeft(row: Airline, entries: seq<Entry>)
    requires forall j :: 0 <= j < |entries| ==> row.iata != Some(entries[j].iata)
    ensures ActiveAfter(row, entries) == row.isActive
  {
    if entries != [] {
      ActiveIsLeft(row, entries[..|entries| - 1]);
    }
  }

  /** Each row of a settled list comes back as it was. */
  lemma SettledRowStays(rows: seq<Airline>, file: CuratedFile, k: nat)
    requires Settled(rows, file) && ValidEntries(file.airlines) && k < |rows|
    ensures (ActiveAfter(rows[k], file.airlines) && !IsNamed(rows[k], file.deactivate)) == rows[k].isActive
  {
    hide IsNamed, UniqueIcao, AllCoded;
    var entries := file.airlines;
    if j :| 0 <= j < |entries| && rows[k].iata == Some(entries[j].iata) {
      ActiveIsSet(rows[k], entries, j);
      assert IsSettled(rows, entries[j], file.deactivate);
      var h :| 0 <= h < |rows| && SettledRow(rows[h], entries[j], file.deactivate);
      if h != k {
        OnlyHolder(rows, h, k);
      }
    } else {
      ActiveIsLeft(rows[k], entries);
    }
  }

  lemma SettledStays(rows: seq<Airline>, file: CuratedFile)
    requires Settled(rows, file) && ValidEntries(file.airlines)
    ensures Applied(rows, file) == rows
  {
    hide UniqueIata, UniqueIcao, AllCoded, Filtered, Deactivate, ApplyEntries, IsNamed, IsHit, IsSettled, ActiveAfter,
         IsKept;
    var now := ApplyEntries(rows, file.airlines);
    ReapplyEntries(rows, file.airlines, file.deactivate);
    var after := Deactivate(now, file.deactivate);
    forall k: nat | k < |rows| ensures after[k] == rows[k] {
      DeactivateFlips(now, file.deactivate, k);
      SameCodesUnique(rows, now);
      UniqueIsKept(now, k);
      KeptIsFound(now, k, file.deactivate);
      NamedIgnoresActive(rows[k], now[k].isActive, file.deactivate);
      SettledRowStays(rows, file, k);
    }
    assert after == rows;
    FilterOfUnique(rows);
  }

  lemma SameCodesUnique(rows: seq<Airline>, others: seq<Airline>)
    requires UniqueIata(rows) && UniqueIcao(rows) && AllCoded(rows)
    requires |others| == |rows| && forall k :: 0 <= k < |rows| ==> others[k] == rows[k].(isActive := others[k].isActive)
    ensures UniqueIata(others) && UniqueIcao(others) && AllCoded(others)
  {
  }

  /** Applying the file again gives the same list. */
  lemma ApplyingIsIdempotent(input: seq<Airline>, file: CuratedFile)
    requires UniqueIata(input) && ValidEntries(file.airlines)
    ensures Applied(Applied(input, file), file) == Applied(input, file)
  {
    hide Applied, Settled, UniqueIata, ValidEntries;
    ResultIsSettled(input, file);
    SettledStays(Applied(input, file), file);
  }

  /** The rows of any airlines file meet what the corrections rely on. */
  lemma SeedIsSettled(lines: seq<string>, file: CuratedFile)
    requires ValidEntries(file.airlines)
    ensures Settled(Applied(SanitizedRows(Deduplicated(lines)), file), file)
  {
    hide Applied, Settled, UniqueIata, ValidEntries;
    FileRowsAreDistinct(lines);
    SanitizedAreUnique(Deduplicated(lines));
    ResultIsSettled(SanitizedRows(Deduplicated(lines)), file);
  }

  // ---- exactly which files of corrections are safe -----------------------------------------------------

  ghost predicate NobodyHas(rows: seq<Airline>, code: string) {
    forall k :: 0 <= k < |rows| ==> rows[k].iata != Some(code)
  }

  /** An entry gives no row any code but its own. */
  lemma NoOtherCode(rows: seq<Airline>, e: Entry, code: string)
    requires NobodyHas(rows, code) && code != e.iata
    ensures NobodyHas(ApplyEntry(rows, e), code)
  {
    hide FindIata, FindOwn, HasCodeless, MatchesOwn;
  }

  /** So a code that is lost when no entry for it is left never returns. */
  lemma {:induction false} LostForGood(rows: seq<Airline>, entries: seq<Entry>, n: nat, code: string)
    requires n <= |entries| && NobodyHas(ApplyEntries(rows, entries[..n]), code)
    requires forall j :: n <= j < |entries| ==> entries[j].iata != code
    ensures NobodyHas(ApplyEntries(rows, entries), code)
    decreases |entries|
  {
    hide ApplyEntry, NobodyHas;
    if n == |entries| {
      assert entries[..n] == entries;
    } else {
      var last := |entries| - 1;
      assert entries[..last][..n] == entries[..n];
      LostForGood(rows, entries[..last], n, code);
      NoOtherCode(ApplyEntries(rows, entries[..last]), entries[last], code);
    }
  }

  /** Every row was finished by one of the entries. */
  ghost predicate FromEntries(rows: seq<Airline>, entries: seq<Entry>) {
    UniqueIata(rows) && forall k :: 0 <= k < |rows| ==> IsOfEntry(rows[k], entries)
  }

  predicate IsOfEntry(row: Airline, entries: seq<Entry>) {
    exists m :: 0 <= m < |entries| && Is(row, Finish(entries[m]))
  }

  /** A new code has no holder among such rows, so the entry is placed. */
  lemma NewCodeIsPlaced(rows: seq<Airline>, entries: seq<Entry>, e: Entry)
    requires FromEntries(rows, entries) && forall m :: 0 <= m < |entries| ==> entries[m].iata != e.iata
    ensures ApplyEntry(rows, e) == Placed(rows, e)
  {
    hide Placed, UniqueIata;
    forall k | 0 <= k < |rows| ensures rows[k].iata != Some(e.iata) {
      assert IsOfEntry(rows[k], entries);
    }
  }

  lemma OfMoreEntries(row: Airline, entries: seq<Entry>, e: Entry)
    requires IsOfEntry(row, entries) || Is(row, Finish(e))
    ensures IsOfEntry(row, entries + [e])
  {
    var all := entries + [e];
    assert all[|entries|] == e;
    if IsOfEntry(row, entries) {
      var m :| 0 <= m < |entries| && Is(row, Finish(entries[m]));
      assert Is(row, Finish(all[m]));
    }
  }

  /** Applied to no rows at all, the entries leave only rows of their own. */
  lemma {:induction false} EmptyStart(entries: seq<Entry>)
    requires DistinctCodes(entries)
    ensures FromEntries(ApplyEntries([], entries), entries)
  {
    hide ApplyEntry, IsOfEntry, UniqueIata, HasFinished;
    if entries == [] {
      EmptyIsUnique();
    } else {
      var n := |entries| - 1;
      var before, e := ApplyEntries([], entries[..n]), entries[n];
      EmptyStart(entries[..n]);
      EntrySettles(before, e);
      NewCodeIsPlaced(before, entries[..n], e);
      assert entries == entries[..n] + [e];
      forall k | 0 <= k < |Placed(before, e)| ensures IsOfEntry(Placed(before, e)[k], entries) {
        OfMoreEntries(Placed(before, e)[k], entries[..n], e);
      }
    }
  }

  lemma EmptyIsUnique()
    ensures UniqueIata([])
  {
  }

  /** An entry whose `own` is the row of an earlier one takes that row and its code, if it is still there. */
  lemma FinishedRowIsTaken(rows: seq<Airline>, entries: seq<Entry>, e: Entry, i: nat)
    requires FromEntries(rows, entries) && DistinctCodes(entries) && i < |entries|
    requires forall m :: 0 <= m < |entries| ==> entries[m].iata != e.iata
    requires e.own == Some(Finish(entries[i]))
    ensures NobodyHas(ApplyEntry(rows, e), entries[i].iata)
  {
    var code := entries[i].iata;
    NewCodeIsPlaced(rows, entries, e);
    hide ApplyEntry, FindOwn;
    if k :| 0 <= k < |rows| && rows[k].iata == Some(code) {
      assert IsOfEntry(rows[k], entries);
      assert MatchesOwn(rows[k], e.own.value);
      var o := OwnIndex(rows, e);
      assert o <= k && IsOfEntry(rows[o], entries);
      assert rows[o].iata == Some(code);
      assert o == k;
    }
  }

  lemma NobodyHasInResult(rows: seq<Airline>, ds: seq<Descriptor>, code: string)
    requires NobodyHas(rows, code)
    ensures NobodyHas(Filtered(Deactivate(rows, ds)), code)
  {
    hide Filtered, Deactivate, IsHit, IsKept;
    var after := Deactivate(rows, ds);
    forall k | 0 <= k < |Filtered(after)| ensures Filtered(after)[k].iata != Some(code) {
      FilteredRows(after, Filtered(after)[k]);
      var m :| 0 <= m < |after| && after[m] == Filtered(after)[k];
      DeactivateFlips(rows, ds, m);
    }
  }

  /** An entry whose row an earlier part of the file has finished loses it for good. */
  lemma TakenEntryIsLost(file: CuratedFile, i: nat, j: nat)
    requires DistinctCodes(file.airlines) && i < j < |file.airlines|
             && file.airlines[j].own == Some(Finish(file.airlines[i]))
    ensures !Settled(Applied([], file), file)
  {
    hide ApplyEntry, ApplyEntries, Filtered, Deactivate, FromEntries, UniqueIata, UniqueIcao, AllCoded, IsNamed;
    var entries := file.airlines;
    EmptyStart(entries[..j]);
    FinishedRowIsTaken(ApplyEntries([], entries[..j]), entries[..j], entries[j], i);
    OneEntryMore([], entries, j);
    LostForGood([], entries, j + 1, entries[i].iata);
    NobodyHasInResult(ApplyEntries([], entries), file.deactivate, entries[i].iata);
    assert !IsSettled(Applied([], file), entries[i], file.deactivate);
  }

  lemma OneEntryMore(rows: seq<Airline>, entries: seq<Entry>, j: nat)
    requires j < |entries|
    ensures ApplyEntries(rows, entries[..j + 1]) == ApplyEntry(ApplyEntries(rows, entries[..j]), entries[j])
  {
    assert entries[..j + 1][..j] == entries[..j];
  }

  /**
   * Entries with different codes settle all rows with different codes if and only if none describes as its own the row
   * of an earlier one; and no rows at all are enough to tell.
   */
  lemma SettlesExactly(file: CuratedFile)
    requires DistinctCodes(file.airlines)
    ensures (forall rows :: UniqueIata(rows) ==> Settled(Applied(rows, file), file)) <==> LeavesFinished(file.airlines)
    ensures Settled(Applied([], file), file) <==> LeavesFinished(file.airlines)
  {
    hide Applied, Settled, UniqueIata, DistinctCodes;
    EmptyIsUnique();
    if LeavesFinished(file.airlines) {
      forall rows | UniqueIata(rows) ensures Settled(Applied(rows, file), file) {
        ResultIsSettled(rows, file);
      }
    } else {
      var i, j :| 0 <= i < j < |file.airlines| && file.airlines[j].own == Some(Finish(file.airlines[i]));
      TakenEntryIsLost(file, i, j);
    }
  }

  const FIRST := Entry("AA", "AAA", "Alpha", "X", true, Insert, false, None)
  const SECOND := Entry("BB", "BBB", "Beta", "X", true, Adopt, false,
                        Some(Descriptor("Alpha", Some("AAA"), Some("AA"))))

  const LOST := [Airline(Some("BB"), Some("BBB"), "Beta", Some("X"), true)]

  /** For instance, the second entry here takes over the row of the first. */
  lemma OwnCanTakeFinishedRow()
    ensures Applied([], CuratedFile([FIRST, SECOND], [])) == LOST && !HasRowOf(LOST, FIRST)
  {
    hide ApplyEntry, Filtered;
    assert [FIRST, SECOND][..1] == [FIRST] && [FIRST][..0] == [];
    FirstIsInserted();
    SecondTakesIt();
    FilterOfUnique(LOST);
    assert ApplyEntries([], [FIRST]) == [Inserted(FIRST)];
    assert ApplyEntries([], [FIRST, SECOND]) == LOST && Deactivate(LOST, []) == LOST;
    assert LOST[0].iata != Some(FIRST.iata);
  }

  lemma FirstIsInserted()
    ensures ApplyEntry([], FIRST) == [Inserted(FIRST)]
  {
  }

  lemma SecondTakesIt()
    ensures ApplyEntry([Inserted(FIRST)], SECOND) == LOST
  {
    var one := [Inserted(FIRST)];
    assert FindIata(one, "BB") == 1 && FindOwn(one, SECOND.own.value) == 0;
  }
}
