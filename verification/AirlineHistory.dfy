// Old flight segments that still point at a retired airline row whose code now belongs to
// another airline (src/server/airline-history.ts): the report that finds them, the run that
// re-points them, and the run that takes it back.
module AirlineHistory {
  import opened Text

  datatype Airline = Airline(id: int, name: string, icao: Option<string>, iata: Option<string>, isActive: bool)

  datatype Segment = Segment(id: string, airlineId: Option<int>, rawCode: Option<string>, departureAt: int)

  datatype Candidate = Candidate(
    segmentId: string,
    oldAirlineId: int,
    oldName: string,
    oldIcao: Option<string>,
    newAirlineId: int,
    newName: string,
    newIata: string,
    departureAt: int)

  // ---- the tables and the report ----------------------------------------------------------

  /** Airline ids and codes are unique columns. */
  predicate ValidAirlines(airlines: seq<Airline>) {
    forall i, j :: 0 <= i < j < |airlines| ==>
      airlines[i].id != airlines[j].id && (airlines[i].iata.Some? ==> airlines[i].iata != airlines[j].iata)
  }

  /** The segments in the order of their primary key. */
  predicate DistinctIds(segments: seq<Segment>) {
    forall i, j :: 0 <= i < j < |segments| ==> segments[i].id != segments[j].id
  }

  /** btrim: spaces only. */
  function Btrim(s: string): string {
    if s == [] then s
    else if s[0] == ' ' then Btrim(s[1..])
    else if s[|s| - 1] == ' ' then Btrim(s[..|s| - 1])
    else s
  }

  function Upper(s: string): string {
    seq(|s|, i requires 0 <= i < |s| => if 'a' <= s[i] <= 'z' then (s[i] as int - 32) as char else s[i])
  }

  /** The spaces on either side of a code are dropped, and nothing else. */
  lemma {:induction false} BtrimDropsSpaces(before: string, code: string, after: string)
    requires (forall i :: 0 <= i < |before| ==> before[i] == ' ') && (forall i :: 0 <= i < |after| ==> after[i] == ' ')
    requires code != [] ==> code[0] != ' ' && code[|code| - 1] != ' '
    ensures Btrim(before + code + after) == code
    decreases |before| + |after|
  {
    var s := before + code + after;
    if before != [] {
      assert s[1..] == before[1..] + code + after;
      BtrimDropsSpaces(before[1..], code, after);
    } else if after != [] {
      var n := |after| - 1;
      assert s[..|s| - 1] == before + code + after[..n];
      BtrimDropsSpaces(before, code, after[..n]);
      if code == [] {
        assert s[1..] == before + code + after[1..];
        BtrimDropsSpaces(before, code, after[1..]);
      }
    } else {
      assert s == code;
    }
  }

  /** Small letters are written large, and nothing else is changed. */
  lemma UpperIsLarge(s: string, t: string)
    requires |s| == |t|
    requires forall i :: 0 <= i < |s| ==>
               if s[i] in "abcdefghijklmnopqrstuvwxyz" then t[i] as int == s[i] as int - 'a' as int + 'A' as int
               else t[i] == s[i]
    ensures Upper(s) == t
  {
    var letters := "abcdefghijklmnopqrstuvwxyz";
    assert forall i :: 0 <= i < 26 ==> letters[i] as int == 'a' as int + i;
    forall c: char ensures c in letters <==> 'a' <= c <= 'z' {
      if 'a' <= c <= 'z' {
        assert letters[c as int - 'a' as int] == c;
      }
    }
  }

  predicate IsRetired(a: Airline) {
    a.iata.None? && !a.isActive
  }

  /** The row has id `id`; at most one has. */
  function WithId(airlines: seq<Airline>, id: int): (r: Option<Airline>)
    ensures r.Some? ==> r.value in airlines && r.value.id == id
    ensures r.None? ==> forall a :: a in airlines ==> a.id != id
  {
    if airlines == [] then None
    else if airlines[0].id == id then Some(airlines[0])
    else WithId(airlines[1..], id)
  }

  function ActiveWithIata(airlines: seq<Airline>, iata: string): (r: Option<Airline>)
    ensures r.Some? ==> r.value in airlines && r.value.iata == Some(iata) && r.value.isActive
    ensures r.None? ==> forall a :: a in airlines ==> a.iata != Some(iata) || !a.isActive
  {
    if airlines == [] then None
    else if airlines[0].iata == Some(iata) && airlines[0].isActive then Some(airlines[0])
    else ActiveWithIata(airlines[1..], iata)
  }

  predicate IsSince(s: Segment, since: Option<int>) {
    since.Some? ==> s.departureAt >= since.value
  }

  predicate OnRetired(airlines: seq<Airline>, since: Option<int>, s: Segment) {
    && IsSince(s, since) && s.airlineId.Some?
    && var o := WithId(airlines, s.airlineId.value); o.Some? && IsRetired(o.value)
  }

  /** The row of the join for one segment, if there is one. */
  function CandidateOf(airlines: seq<Airline>, since: Option<int>, s: Segment): Option<Candidate> {
    if OnRetired(airlines, since, s) && s.rawCode.Some? && |Btrim(s.rawCode.value)| == 2 then
      var o := WithId(airlines, s.airlineId.value).value;
      var c := ActiveWithIata(airlines, Upper(Btrim(s.rawCode.value)));
      if c.Some? && c.value.id != o.id
      then Some(Candidate(s.id, o.id, o.name, o.icao, c.value.id, c.value.name, c.value.iata.value, s.departureAt))
      else None
    else None
  }

  /** The WHERE and ON conditions of the candidate query, for a segment and two airline rows. */
  predicate Joins(since: Option<int>, s: Segment, o: Airline, c: Airline) {
    && s.airlineId == Some(o.id) && s.rawCode.Some?
    && c.iata == Some(Upper(Btrim(s.rawCode.value))) && c.isActive
    && o.iata.None? && !o.isActive && c.id != o.id
    && |Btrim(s.rawCode.value)| == 2 && IsSince(s, since)
  }

  /**
   * With ids and codes unique the query gives at most one row for a segment, and gives it exactly when two airlines
   * join.
   */
  lemma CandidateIsTheJoin(airlines: seq<Airline>, since: Option<int>, s: Segment, o: Airline, c: Airline)
    requires ValidAirlines(airlines) && o in airlines && c in airlines
    ensures Joins(since, s, o, c) <==>
            CandidateOf(airlines, since, s)
                == Some(Candidate(s.id, o.id, o.name, o.icao, c.id, c.name, if c.iata.Some? then c.iata.value else "",
                                  s.departureAt))
            && s.airlineId == Some(o.id)
  {
    hide Btrim, Upper;
    var found := CandidateOf(airlines, since, s);
    if Joins(since, s, o, c) {
      SameId(airlines, o, WithId(airlines, o.id).value);
      SameIata(airlines, c, ActiveWithIata(airlines, Upper(Btrim(s.rawCode.value))).value);
    }
    if found.Some? && found.value.newAirlineId == c.id && s.airlineId == Some(o.id) {
      SameId(airlines, o, WithId(airlines, o.id).value);
      SameId(airlines, c, ActiveWithIata(airlines, Upper(Btrim(s.rawCode.value))).value);
    }
  }

  lemma SameId(airlines: seq<Airline>, a: Airline, b: Airline)
    requires ValidAirlines(airlines) && a in airlines && b in airlines && a.id == b.id
    ensures a == b
  {
    var i :| 0 <= i < |airlines| && airlines[i] == a;
    var j :| 0 <= j < |airlines| && airlines[j] == b;
  }

  lemma SameIata(airlines: seq<Airline>, a: Airline, b: Airline)
    requires ValidAirlines(airlines) && a in airlines && b in airlines && a.iata == b.iata && a.iata.Some?
    ensures a == b
  {
    var i :| 0 <= i < |airlines| && airlines[i] == a;
    var j :| 0 <= j < |airlines| && airlines[j] == b;
  }

  function Candidates(airlines: seq<Airline>, since: Option<int>, segments: seq<Segment>): seq<Candidate> {
    if segments == [] then []
    else
      var n := |segments| - 1;
      var last := CandidateOf(airlines, since, segments[n]);
      Candidates(airlines, since, segments[..n]) + (if last.Some? then [last.value] else [])
  }

  function RetiredCount(airlines: seq<Airline>, since: Option<int>, segments: seq<Segment>): nat {
    if segments == [] then 0
    else
      var n := |segments| - 1;
      RetiredCount(airlines, since, segments[..n]) + (if OnRetired(airlines, since, segments[n]) then 1 else 0)
  }

  /** onRetiredRows - candidates.length */
  function NotInferable(airlines: seq<Airline>, since: Option<int>, segments: seq<Segment>): int {
    RetiredCount(airlines, since, segments) - |Candidates(airlines, since, segments)|
  }

  /** The segment points at a row without code that is not active. */
  ghost predicate PointsAtRetired(airlines: seq<Airline>, since: Option<int>, s: Segment) {
    IsSince(s, since) && exists o :: o in airlines && s.airlineId == Some(o.id) && o.iata.None? && !o.isActive
  }

  lemma OnRetiredMeans(airlines: seq<Airline>, since: Option<int>, s: Segment)
    requires ValidAirlines(airlines)
    ensures OnRetired(airlines, since, s) <==> PointsAtRetired(airlines, since, s)
    ensures CandidateOf(airlines, since, s).Some? ==> OnRetired(airlines, since, s)
  {
    hide Btrim, Upper, ValidAirlines;
    if o :| o in airlines && s.airlineId == Some(o.id) && o.iata.None? && !o.isActive {
      SameId(airlines, o, WithId(airlines, o.id).value);
    }
  }

  ghost function RetiredSegments(airlines: seq<Airline>, since: Option<int>, segments: seq<Segment>): set<int> {
    set k | 0 <= k < |segments| && PointsAtRetired(airlines, since, segments[k])
  }

  /** On a retired row, and not a candidate. */
  ghost function OpenSegments(airlines: seq<Airline>, since: Option<int>, segments: seq<Segment>): set<int> {
    set k | 0 <= k < |segments| && PointsAtRetired(airlines, since, segments[k])
            && CandidateOf(airlines, since, segments[k]).None?
  }

  lemma OneMoreRetired(airlines: seq<Airline>, since: Option<int>, segments: seq<Segment>, last: Segment)
    ensures RetiredSegments(airlines, since, segments + [last])
            == RetiredSegments(airlines, since, segments)
               + (if PointsAtRetired(airlines, since, last) then {|segments|} else {})
    ensures |segments| !in RetiredSegments(airlines, since, segments)
  {
    hide PointsAtRetired;
  }

  lemma OneMoreOpen(airlines: seq<Airline>, since: Option<int>, segments: seq<Segment>, last: Segment)
    ensures OpenSegments(airlines, since, segments + [last])
            == OpenSegments(airlines, since, segments)
               + (if PointsAtRetired(airlines, since, last) && CandidateOf(airlines, since, last).None?
                  then {|segments|} else {})
    ensures |segments| !in OpenSegments(airlines, since, segments)
  {
    hide PointsAtRetired, CandidateOf;
  }

  lemma AddsOne(before: set<int>, n: int, isMore: bool)
    requires n !in before
    ensures |before + (if isMore then {n} else {})| == |before| + (if isMore then 1 else 0)
  {
    assert !isMore ==> before + {} == before;
  }

  /**
   * The two numbers of the report: how many segments point at a retired row, and how many of those are not candidates.
   */
  lemma {:induction false} ReportCounts(airlines: seq<Airline>, since: Option<int>, segments: seq<Segment>)
    requires ValidAirlines(airlines)
    ensures RetiredCount(airlines, since, segments) == |RetiredSegments(airlines, since, segments)|
    ensures NotInferable(airlines, since, segments) == |OpenSegments(airlines, since, segments)|
  {
    if segments == [] {
    } else {
      var n := |segments| - 1;
      var s, before := segments[n], segments[..n];
      hide OnRetired, PointsAtRetired, CandidateOf, ValidAirlines, RetiredSegments, OpenSegments;
      ReportCounts(airlines, since, before);
      OnRetiredMeans(airlines, since, s);
      OneMoreRetired(airlines, since, before, s);
      OneMoreOpen(airlines, since, before, s);
      AddsOne(RetiredSegments(airlines, since, before), n, PointsAtRetired(airlines, since, s));
      AddsOne(OpenSegments(airlines, since, before), n,
              PointsAtRetired(airlines, since, s) && CandidateOf(airlines, since, s).None?);
      assert before + [s] == segments;
    }
  }

  // ---- the summary per pair of airlines ------------------------------------------------------

  datatype PairRow = PairRow(from: string, to: string, segments: nat, firstDeparture: int, lastDeparture: int)

  function Key(c: Candidate): (int, int) {
    (c.oldAirlineId, c.newAirlineId)
  }

  /** Candidates are counted together exactly if they are moved from the same airline to the same airline. */
  lemma KeyIsThePair(a: Candidate, b: Candidate)
    ensures Key(a) == Key(b) <==> a.oldAirlineId == b.oldAirlineId && a.newAirlineId == b.newAirlineId
  {
  }

  function FromText(c: Candidate): string {
    c.oldName + (if c.oldIcao.Some? && c.oldIcao.value != "" then " (" + c.oldIcao.value + ")" else "")
  }

  function ToText(c: Candidate): string {
    c.newName + " (" + c.newIata + ")"
  }

  function CountOf(candidates: seq<Candidate>, key: (int, int)): nat {
    if candidates == [] then 0
    else
      var n := |candidates| - 1;
      CountOf(candidates[..n], key) + (if Key(candidates[n]) == key then 1 else 0)
  }

  /**
   * The row counts the candidates of its pair, spans their departures and names the airlines as the first of them does.
   */
  ghost predicate Summarises(row: PairRow, candidates: seq<Candidate>, key: (int, int)) {
    && row.segments == CountOf(candidates, key)
    && Named(row, candidates, key)
    && Spans(row, candidates, key)
  }

  ghost predicate Named(row: PairRow, candidates: seq<Candidate>, key: (int, int)) {
    exists i :: 0 <= i < |candidates| && IsFirst(candidates, i, key) && NamesPair(row, candidates[i])
  }

  /** The two airlines by name, with the old one's ICAO code if it has one and the new one's IATA code in brackets. */
  predicate NamesPair(row: PairRow, c: Candidate) {
    && row.from == (if c.oldIcao.None? || c.oldIcao.value == "" then c.oldName
                    else c.oldName + " (" + c.oldIcao.value + ")")
    && row.to == c.newName + " (" + c.newIata + ")"
  }

  ghost predicate Spans(row: PairRow, candidates: seq<Candidate>, key: (int, int)) {
    && (forall c :: c in candidates && Key(c) == key ==> row.firstDeparture <= c.departureAt <= row.lastDeparture)
    && (exists c :: c in candidates && Key(c) == key && c.departureAt == row.firstDeparture)
    && (exists c :: c in candidates && Key(c) == key && c.departureAt == row.lastDeparture)
  }

  ghost predicate IsFirst(candidates: seq<Candidate>, i: nat, key: (int, int))
    requires i < |candidates|
  {
    Key(candidates[i]) == key && forall j :: 0 <= j < i ==> Key(candidates[j]) != key
  }

  function Total(rows: seq<PairRow>): nat {
    if rows == [] then 0 else Total(rows[..|rows| - 1]) + rows[|rows| - 1].segments
  }

  /** One row per pair that occurs, each the summary of its pair. */
  ghost predicate IsSummary(keys: seq<(int, int)>, rows: seq<PairRow>, candidates: seq<Candidate>) {
    && |keys| == |rows|
    && (forall i, j :: 0 <= i < j < |keys| ==> keys[i] != keys[j])
    && (forall c :: c in candidates ==> Key(c) in keys)
    && (forall k :: 0 <= k < |keys| ==> Summarises(rows[k], candidates, keys[k]))
    && Total(rows) == |candidates|
  }

  method ByPair(candidates: seq<Candidate>) returns (keys: seq<(int, int)>, rows: seq<PairRow>)
    ensures IsSummary(keys, rows, candidates)
  {
    hide IsSummary, FromText, ToText;
    keys, rows := [], [];
    EmptySummary();
    for n := 0 to |candidates|
      invariant |keys| == |rows| && IsSummary(keys, rows, candidates[..n])
    {
      var c := candidates[n];
      assert candidates[..n + 1] == candidates[..n] + [c];
      if Key(c) in keys {
        var k :| 0 <= k < |keys| && keys[k] == Key(c);
        var p := rows[k];
        p := p.(segments := p.segments + 1);
        if c.departureAt < p.firstDeparture { p := p.(firstDeparture := c.departureAt); }
        if c.departureAt > p.lastDeparture { p := p.(lastDeparture := c.departureAt); }
        AddToPair(keys, rows, candidates[..n], c, k, p);
        rows := rows[k := p];
      } else {
        var p := PairRow(FromText(c), ToText(c), 1, c.departureAt, c.departureAt);
        NewPair(keys, rows, candidates[..n], c, p);
        keys := keys + [Key(c)];
        rows := rows + [p];
      }
    }
    assert candidates[..|candidates|] == candidates;
  }

  lemma EmptySummary()
    ensures IsSummary([], [], [])
  {
  }

  lemma AddToPair(keys: seq<(int, int)>, rows: seq<PairRow>, before: seq<Candidate>, c: Candidate, k: nat, p: PairRow)
    requires IsSummary(keys, rows, before) && k < |keys| && keys[k] == Key(c)
    requires p == PairRow(rows[k].from, rows[k].to, rows[k].segments + 1,
                          if c.departureAt < rows[k].firstDeparture then c.departureAt else rows[k].firstDeparture,
                          if c.departureAt > rows[k].lastDeparture then c.departureAt else rows[k].lastDeparture)
    ensures IsSummary(keys, rows[k := p], before + [c])
  {
    hide Summarises, Total;
    OneMore(rows[k], p, before, c);
    TotalUpdate(rows, k, p);
    forall i | 0 <= i < |keys| ensures Summarises(rows[k := p][i], before + [c], keys[i]) {
      if i != k {
        OthersKeep(rows[i], before, c, keys[i]);
      }
    }
  }

  lemma NewPair(keys: seq<(int, int)>, rows: seq<PairRow>, before: seq<Candidate>, c: Candidate, p: PairRow)
    requires IsSummary(keys, rows, before) && Key(c) !in keys
    requires p == PairRow(FromText(c), ToText(c), 1, c.departureAt, c.departureAt)
    ensures IsSummary(keys + [Key(c)], rows + [p], before + [c])
  {
    hide Summarises, FromText, ToText;
    NoneBefore(before, Key(c), keys);
    FirstOne(p, before, c);
    forall i | 0 <= i < |keys| ensures Summarises(rows[i], before + [c], keys[i]) {
      OthersKeep(rows[i], before, c, keys[i]);
    }
    assert (rows + [p])[..|rows|] == rows;
  }

  lemma OthersKeep(row: PairRow, before: seq<Candidate>, c: Candidate, key: (int, int))
    requires Summarises(row, before, key) && Key(c) != key
    ensures Summarises(row, before + [c], key)
  {
    hide Named, Spans;
    assert (before + [c])[..|before|] == before;
    StillNamed(row, row, before, c, key);
    OtherSpan(row, before, c, key);
  }

  lemma StillNamed(row: PairRow, p: PairRow, before: seq<Candidate>, c: Candidate, key: (int, int))
    requires Named(row, before, key) && p.from == row.from && p.to == row.to
    ensures Named(p, before + [c], key)
  {
    var all := before + [c];
    var i :| 0 <= i < |before| && IsFirst(before, i, key) && NamesPair(row, before[i]);
    assert forall j :: 0 <= j < |before| ==> all[j] == before[j];
    assert IsFirst(all, i, key);
  }

  lemma OtherSpan(row: PairRow, before: seq<Candidate>, c: Candidate, key: (int, int))
    requires Spans(row, before, key) && Key(c) != key
    ensures Spans(row, before + [c], key)
  {
    var first :| first in before && Key(first) == key && first.departureAt == row.firstDeparture;
    var last :| last in before && Key(last) == key && last.departureAt == row.lastDeparture;
    assert first in before + [c] && last in before + [c];
  }

  lemma OneMore(row: PairRow, p: PairRow, before: seq<Candidate>, c: Candidate)
    requires Summarises(row, before, Key(c))
    requires p == PairRow(row.from, row.to, row.segments + 1,
                          if c.departureAt < row.firstDeparture then c.departureAt else row.firstDeparture,
                          if c.departureAt > row.lastDeparture then c.departureAt else row.lastDeparture)
    ensures Summarises(p, before + [c], Key(c))
  {
    hide Named, Spans;
    assert (before + [c])[..|before|] == before;
    StillNamed(row, p, before, c, Key(c));
    WiderSpan(row, p, before, c);
  }

  lemma WiderSpan(row: PairRow, p: PairRow, before: seq<Candidate>, c: Candidate)
    requires Spans(row, before, Key(c))
    requires p.firstDeparture == if c.departureAt < row.firstDeparture then c.departureAt else row.firstDeparture
    requires p.lastDeparture == if c.departureAt > row.lastDeparture then c.departureAt else row.lastDeparture
    ensures Spans(p, before + [c], Key(c))
  {
    var first :| first in before && Key(first) == Key(c) && first.departureAt == row.firstDeparture;
    var last :| last in before && Key(last) == Key(c) && last.departureAt == row.lastDeparture;
    assert first in before + [c] && last in before + [c] && c in before + [c];
  }

  lemma FirstOne(p: PairRow, before: seq<Candidate>, c: Candidate)
    requires CountOf(before, Key(c)) == 0 && forall b :: b in before ==> Key(b) != Key(c)
    requires p == PairRow(FromText(c), ToText(c), 1, c.departureAt, c.departureAt)
    ensures Summarises(p, before + [c], Key(c))
  {
    var all := before + [c];
    assert all[..|before|] == before && c in all;
    NewRowNames(p, c);
    assert IsFirst(all, |before|, Key(c)) && all[|before|] == c;
  }

  lemma NewRowNames(p: PairRow, c: Candidate)
    requires p == PairRow(FromText(c), ToText(c), 1, c.departureAt, c.departureAt)
    ensures NamesPair(p, c)
  {
    if c.oldIcao.None? || c.oldIcao.value == "" {
      assert c.oldName + "" == c.oldName;
    } else {
      assert c.oldName + (" (" + c.oldIcao.value + ")") == c.oldName + " (" + c.oldIcao.value + ")";
    }
  }

  lemma {:induction false} NoneBefore(before: seq<Candidate>, key: (int, int), keys: seq<(int, int)>)
    requires key !in keys && forall c :: c in before ==> Key(c) in keys
    ensures CountOf(before, key) == 0
  {
    if before != [] {
      NoneBefore(before[..|before| - 1], key, keys);
    }
  }

  lemma {:induction false} TotalUpdate(rows: seq<PairRow>, k: nat, p: PairRow)
    requires k < |rows|
    ensures Total(rows[k := p]) == Total(rows) - rows[k].segments + p.segments
  {
    var n := |rows| - 1;
    if k < n {
      TotalUpdate(rows[..n], k, p);
      assert rows[k := p][..n] == rows[..n][k := p];
    } else {
      assert rows[k := p][..n] == rows[..n];
    }
  }

  // ---- re-pointing and taking it back ----------------------------------------------------------

  datatype UndoEntry = UndoEntry(segmentId: string, fromAirlineId: int, toAirlineId: int)

  function UndoList(candidates: seq<Candidate>): seq<UndoEntry> {
    seq(|candidates|, i requires 0 <= i < |candidates| =>
      UndoEntry(candidates[i].segmentId, candidates[i].oldAirlineId, candidates[i].newAirlineId))
  }

  /** UPDATE ... SET airlineId = to WHERE id = id AND airlineId = from, for one row. */
  function Swapped(s: Segment, id: string, from: int, to: int): Segment {
    if s.id == id && s.airlineId == Some(from) then s.(airlineId := Some(to)) else s
  }

  function SwapAll(segments: seq<Segment>, id: string, from: int, to: int): seq<Segment> {
    seq(|segments|, i requires 0 <= i < |segments| => Swapped(segments[i], id, from, to))
  }

  /** What a whole run of updates does to one row. */
  function AppliedRow(s: Segment, undo: seq<UndoEntry>): Segment {
    if undo == [] then s
    else
      var u := undo[|undo| - 1];
      Swapped(AppliedRow(s, undo[..|undo| - 1]), u.segmentId, u.fromAirlineId, u.toAirlineId)
  }

  function UndoneRow(s: Segment, undo: seq<UndoEntry>): Segment {
    if undo == [] then s
    else
      var u := undo[|undo| - 1];
      Swapped(UndoneRow(s, undo[..|undo| - 1]), u.segmentId, u.toAirlineId, u.fromAirlineId)
  }

  function Applied(segments: seq<Segment>, undo: seq<UndoEntry>): seq<Segment> {
    seq(|segments|, i requires 0 <= i < |segments| => AppliedRow(segments[i], undo))
  }

  function Undone(segments: seq<Segment>, undo: seq<UndoEntry>): seq<Segment> {
    seq(|segments|, i requires 0 <= i < |segments| => UndoneRow(segments[i], undo))
  }

  predicate Hit(segments: seq<Segment>, id: string, from: int) {
    exists i :: 0 <= i < |segments| && segments[i].id == id && segments[i].airlineId == Some(from)
  }

  /** How many of the updates find their row unchanged. */
  function AppliedCount(segments: seq<Segment>, undo: seq<UndoEntry>): nat {
    if undo == [] then 0
    else
      var n := |undo| - 1;
      AppliedCount(segments, undo[..n])
      + (if Hit(Applied(segments, undo[..n]), undo[n].segmentId, undo[n].fromAirlineId) then 1 else 0)
  }

  function UndoneCount(segments: seq<Segment>, undo: seq<UndoEntry>): nat {
    if undo == [] then 0
    else
      var n := |undo| - 1;
      UndoneCount(segments, undo[..n])
      + (if Hit(Undone(segments, undo[..n]), undo[n].segmentId, undo[n].toAirlineId) then 1 else 0)
  }

  /** The FlightSegment table, and the undo list the operator has been given. */
  class SegmentTable {
    var segments: seq<Segment>
    var recorded: Option<seq<UndoEntry>>

    /** One compare-and-swap on the table; the number of rows it changed is 0 or 1, ids being unique. */
    method Update(id: string, from: int, to: int) returns (rowCount: nat)
      requires DistinctIds(segments)
      modifies this`segments
      ensures segments == SwapAll(old(segments), id, from, to) && DistinctIds(segments)
      ensures rowCount == if Hit(old(segments), id, from) then 1 else 0
    {
      rowCount := 0;
      for i := 0 to |segments|
        invariant segments == old(segments) && rowCount == 0
        invariant !Hit(segments[..i], id, from)
      {
        if segments[i].id == id && segments[i].airlineId == Some(from) {
          segments := segments[i := segments[i].(airlineId := Some(to))];
          assert segments == SwapAll(old(segments), id, from, to);
          rowCount := 1;
          return;
        }
      }
      assert segments == SwapAll(old(segments), id, from, to);
    }

    /** `stopAfter` updates are made before the run is interrupted; the undo list is complete before the first. */
    method ApplyRepoint(candidates: seq<Candidate>, recordFails: bool, stopAfter: nat)
      returns (applied: nat, skippedChanged: nat, undo: seq<UndoEntry>)
      requires DistinctIds(segments)
      modifies this
      ensures undo == UndoList(candidates) && DistinctIds(segments)
      ensures recordFails ==> segments == old(segments) && recorded == old(recorded)
      ensures !recordFails ==>
                var done := undo[..if stopAfter < |undo| then stopAfter else |undo|];
                && recorded == Some(undo)
                && segments == Applied(old(segments), done)
                && applied == AppliedCount(old(segments), done) && applied + skippedChanged == |done|
    {
      undo := UndoList(candidates);
      applied, skippedChanged := 0, 0;
      if recordFails {
        return;
      }
      recorded := Some(undo);
      assert segments == Applied(segments, []);
      var i := 0;
      while i < |undo| && i < stopAfter
        invariant 0 <= i <= |undo| && i <= stopAfter && DistinctIds(segments)
        invariant recorded == Some(undo)
        invariant segments == Applied(old(segments), undo[..i])
        invariant applied == AppliedCount(old(segments), undo[..i]) && applied + skippedChanged == i
      {
        var u := undo[i];
        assert undo[..i + 1][..i] == undo[..i];
        var rowCount := Update(u.segmentId, u.fromAirlineId, u.toAirlineId);
        assert segments == Applied(old(segments), undo[..i + 1]);
        if rowCount == 1 {
          applied := applied + 1;
        } else {
          skippedChanged := skippedChanged + 1;
        }
        i := i + 1;
      }
    }

    method UndoRepoint(undo: seq<UndoEntry>) returns (restored: nat, skippedChanged: nat)
      requires DistinctIds(segments)
      modifies this`segments
      ensures segments == Undone(old(segments), undo) && DistinctIds(segments)
      ensures restored == UndoneCount(old(segments), undo) && restored + skippedChanged == |undo|
    {
      restored, skippedChanged := 0, 0;
      assert segments == Undone(segments, []);
      for i := 0 to |undo|
        invariant DistinctIds(segments)
        invariant segments == Undone(old(segments), undo[..i])
        invariant restored == UndoneCount(old(segments), undo[..i]) && restored + skippedChanged == i
      {
        var u := undo[i];
        assert undo[..i + 1][..i] == undo[..i];
        var rowCount := Update(u.segmentId, u.toAirlineId, u.fromAirlineId);
        assert segments == Undone(old(segments), undo[..i + 1]);
        if rowCount == 1 {
          restored := restored + 1;
        } else {
          skippedChanged := skippedChanged + 1;
        }
      }
      assert undo[..|undo|] == undo;
    }
  }

  /** An undo list as a report on a table makes it: one entry per segment, and never from an airline to itself. */
  predicate ValidUndo(undo: seq<UndoEntry>) {
    && (forall i, j :: 0 <= i < j < |undo| ==> undo[i].segmentId != undo[j].segmentId)
    && (forall u :: u in undo ==> u.fromAirlineId != u.toAirlineId)
  }

  function EntryFor(undo: seq<UndoEntry>, id: string): (r: Option<UndoEntry>)
    ensures r.Some? ==> r.value in undo && r.value.segmentId == id
    ensures r.None? ==> forall u :: u in undo ==> u.segmentId != id
  {
    if undo == [] then None
    else if undo[|undo| - 1].segmentId == id then Some(undo[|undo| - 1])
    else EntryFor(undo[..|undo| - 1], id)
  }

  /** A run of updates touches a row only through its own entry. */
  lemma {:induction false} OneEntryActs(s: Segment, undo: seq<UndoEntry>)
    requires ValidUndo(undo)
    ensures var u := EntryFor(undo, s.id);
            && AppliedRow(s, undo)
               == (if u.Some? then Swapped(s, s.id, u.value.fromAirlineId, u.value.toAirlineId) else s)
            && UndoneRow(s, undo)
               == (if u.Some? then Swapped(s, s.id, u.value.toAirlineId, u.value.fromAirlineId) else s)
  {
    if undo != [] {
      var n := |undo| - 1;
      OneEntryActs(s, undo[..n]);
      assert undo[n].segmentId == s.id ==> EntryFor(undo[..n], s.id).None?;
    }
  }

  lemma EntryOfPrefix(undo: seq<UndoEntry>, n: nat, id: string)
    requires ValidUndo(undo) && n <= |undo|
    ensures ValidUndo(undo[..n])
    ensures EntryFor(undo[..n], id).Some? ==> EntryFor(undo, id) == EntryFor(undo[..n], id)
  {
    if EntryFor(undo[..n], id).Some? {
      var u, v := EntryFor(undo[..n], id).value, EntryFor(undo, id).value;
      var i :| 0 <= i < n && undo[i] == u;
      var j :| 0 <= j < |undo| && undo[j] == v;
    }
  }

  /** Nobody has already moved one of the listed segments to the airline it was to be moved to. */
  predicate NoneMovedByHand(segments: seq<Segment>, undo: seq<UndoEntry>) {
    forall k :: 0 <= k < |segments| ==>
      var u := EntryFor(undo, segments[k].id);
      u.Some? ==> segments[k].airlineId != Some(u.value.toAirlineId)
  }

  /**
   * A run interrupted after any number of updates and then undone with the whole list leaves the table as it was when
   * the run began, whatever it was then, exactly when no listed segment already pointed at its new airline.
   */
  lemma UndoRestores(segments: seq<Segment>, undo: seq<UndoEntry>, n: nat)
    requires ValidUndo(undo) && n <= |undo|
    ensures Undone(Applied(segments, undo[..n]), undo) == segments <==> NoneMovedByHand(segments, undo)
  {
    var back := Undone(Applied(segments, undo[..n]), undo);
    forall k | 0 <= k < |segments|
      ensures back[k] == segments[k] <==>
              var u := EntryFor(undo, segments[k].id); u.Some? ==> segments[k].airlineId != Some(u.value.toAirlineId)
    {
      RowRestored(segments[k], undo, n);
    }
  }

  lemma RowRestored(s: Segment, undo: seq<UndoEntry>, n: nat)
    requires ValidUndo(undo) && n <= |undo|
    ensures var u := EntryFor(undo, s.id);
            UndoneRow(AppliedRow(s, undo[..n]), undo) == s <==> (u.Some? ==> s.airlineId != Some(u.value.toAirlineId))
  {
    EntryOfPrefix(undo, n, s.id);
    OneEntryActs(s, undo[..n]);
    OneEntryActs(AppliedRow(s, undo[..n]), undo);
  }

  /** A segment moved elsewhere after the run is left alone by the undo; one still where the run put it goes back. */
  lemma LaterEditsSurvive(s: Segment, undo: seq<UndoEntry>)
    requires ValidUndo(undo)
    ensures var u := EntryFor(undo, s.id);
            UndoneRow(s, undo)
            == if u.Some? && s.airlineId == Some(u.value.toAirlineId)
               then s.(airlineId := Some(u.value.fromAirlineId)) else s
  {
    OneEntryActs(s, undo);
  }

  /** Some row has this id and points at this airline. */
  predicate PointsAt(segments: seq<Segment>, id: string, airline: int) {
    exists i :: 0 <= i < |segments| && segments[i].id == id && segments[i].airlineId == Some(airline)
  }

  lemma UntouchedByOthers(s: Segment, undo: seq<UndoEntry>)
    requires forall u :: u in undo ==> u.segmentId != s.id
    ensures AppliedRow(s, undo) == s && UndoneRow(s, undo) == s
  {
    if undo != [] {
      UntouchedByOthers(s, undo[..|undo| - 1]);
    }
  }

  /** Entries for other segments do not decide whether an update finds its row. */
  lemma HitIsDecidedBefore(segments: seq<Segment>, undo: seq<UndoEntry>, n: nat, airline: int)
    requires ValidUndo(undo) && n < |undo|
    ensures Hit(Applied(segments, undo[..n]), undo[n].segmentId, airline) <==>
            PointsAt(segments, undo[n].segmentId, airline)
    ensures Hit(Undone(segments, undo[..n]), undo[n].segmentId, airline) <==>
            PointsAt(segments, undo[n].segmentId, airline)
  {
    hide AppliedRow, UndoneRow;
    var id := undo[n].segmentId;
    forall i | 0 <= i < |segments|
      ensures AppliedRow(segments[i], undo[..n]).id == UndoneRow(segments[i], undo[..n]).id == segments[i].id
      ensures segments[i].id == id ==>
                AppliedRow(segments[i], undo[..n]) == UndoneRow(segments[i], undo[..n]) == segments[i]
    {
      IdStays(segments[i], undo[..n]);
      if segments[i].id == id {
        forall u | u in undo[..n] ensures u.segmentId != id {
          var j :| 0 <= j < n && undo[j] == u;
        }
        UntouchedByOthers(segments[i], undo[..n]);
      }
    }
    var applied, undone := Applied(segments, undo[..n]), Undone(segments, undo[..n]);
    if i :| 0 <= i < |segments| && segments[i].id == id && segments[i].airlineId == Some(airline) {
      assert applied[i] == segments[i] && undone[i] == segments[i];
    }
    if i :| 0 <= i < |applied| && applied[i].id == id && applied[i].airlineId == Some(airline) {
      assert applied[i] == segments[i];
    }
    if i :| 0 <= i < |undone| && undone[i].id == id && undone[i].airlineId == Some(airline) {
      assert undone[i] == segments[i];
    }
  }

  lemma IdStays(s: Segment, undo: seq<UndoEntry>)
    ensures AppliedRow(s, undo).id == UndoneRow(s, undo).id == s.id
  {
    if undo != [] {
      IdStays(s, undo[..|undo| - 1]);
    }
  }

  /** Which of the first `n` entries find their segment where the list says it was. */
  ghost function InPlace(segments: seq<Segment>, undo: seq<UndoEntry>, n: nat): set<int>
    requires n <= |undo|
  {
    set i | 0 <= i < n && PointsAt(segments, undo[i].segmentId, undo[i].fromAirlineId)
  }

  /** Which of them find it where the list says it goes. */
  ghost function Moved(segments: seq<Segment>, undo: seq<UndoEntry>, n: nat): set<int>
    requires n <= |undo|
  {
    set i | 0 <= i < n && PointsAt(segments, undo[i].segmentId, undo[i].toAirlineId)
  }

  lemma OneMoreEntry(segments: seq<Segment>, undo: seq<UndoEntry>, n: nat)
    requires n < |undo|
    ensures InPlace(segments, undo, n + 1) == InPlace(segments, undo, n)
            + (if PointsAt(segments, undo[n].segmentId, undo[n].fromAirlineId) then {n as int} else {})
    ensures Moved(segments, undo, n + 1) == Moved(segments, undo, n)
            + (if PointsAt(segments, undo[n].segmentId, undo[n].toAirlineId) then {n as int} else {})
    ensures n !in InPlace(segments, undo, n) && n !in Moved(segments, undo, n)
  {
    hide PointsAt;
  }

  /**
   * The counters of both runs, from the table they start on: an update counts if its segment is where the list says it
   * was, an undo if it is where the list says it went.
   */
  lemma {:induction false} CountersTell(segments: seq<Segment>, undo: seq<UndoEntry>, n: nat)
    requires ValidUndo(undo) && n <= |undo|
    ensures AppliedCount(segments, undo[..n]) == |InPlace(segments, undo, n)|
    ensures UndoneCount(segments, undo[..n]) == |Moved(segments, undo, n)|
  {
    if n > 0 {
      var m := n - 1;
      hide Hit, PointsAt, Applied, Undone, ValidUndo, InPlace, Moved;
      CountersTell(segments, undo, m);
      HitIsDecidedBefore(segments, undo, m, undo[m].fromAirlineId);
      HitIsDecidedBefore(segments, undo, m, undo[m].toAirlineId);
      assert undo[..n][..m] == undo[..m];
      OneMoreEntry(segments, undo, m);
      AddsOne(InPlace(segments, undo, m), m, PointsAt(segments, undo[m].segmentId, undo[m].fromAirlineId));
      AddsOne(Moved(segments, undo, m), m, PointsAt(segments, undo[m].segmentId, undo[m].toAirlineId));
    }
  }

  // ---- a report and the run made from it ----------------------------------------------------------

  /** The report lists a candidate for a segment exactly when the join gives one. */
  lemma {:induction false} CandidatesAreOfSegments(airlines: seq<Airline>, since: Option<int>, segments: seq<Segment>,
                                                   c: Candidate)
    ensures c in Candidates(airlines, since, segments) <==>
            exists k :: 0 <= k < |segments| && CandidateOf(airlines, since, segments[k]) == Some(c)
  {
    hide CandidateOf;
    if segments != [] {
      var n := |segments| - 1;
      CandidatesAreOfSegments(airlines, since, segments[..n], c);
      if c in Candidates(airlines, since, segments[..n]) {
        var k :| 0 <= k < n && CandidateOf(airlines, since, segments[..n][k]) == Some(c);
        assert CandidateOf(airlines, since, segments[k]) == Some(c);
      }
      forall k | 0 <= k < |segments| && CandidateOf(airlines, since, segments[k]) == Some(c)
        ensures c in Candidates(airlines, since, segments)
      {
        assert k < n ==> segments[..n][k] == segments[k];
      }
    }
  }

  lemma CandidateHasSegmentId(airlines: seq<Airline>, since: Option<int>, s: Segment)
    ensures var c := CandidateOf(airlines, since, s);
            c.Some? ==>
              c.value.segmentId == s.id && s.airlineId == Some(c.value.oldAirlineId)
              && c.value.oldAirlineId != c.value.newAirlineId
  {
    hide Btrim, Upper;
  }

  /** At most one candidate per segment. */
  lemma {:induction false} CandidateIdsDiffer(airlines: seq<Airline>, since: Option<int>, segments: seq<Segment>)
    requires DistinctIds(segments)
    ensures forall i, j :: 0 <= i < j < |Candidates(airlines, since, segments)| ==>
              Candidates(airlines, since, segments)[i].segmentId != Candidates(airlines, since, segments)[j].segmentId
  {
    hide CandidateOf;
    if segments != [] {
      var n := |segments| - 1;
      CandidateIdsDiffer(airlines, since, segments[..n]);
      CandidateHasSegmentId(airlines, since, segments[n]);
      forall c | c in Candidates(airlines, since, segments[..n]) ensures c.segmentId != segments[n].id {
        CandidatesAreOfSegments(airlines, since, segments[..n], c);
        var k :| 0 <= k < n && CandidateOf(airlines, since, segments[..n][k]) == Some(c);
        CandidateHasSegmentId(airlines, since, segments[k]);
      }
    }
  }

  /**
   * The undo list of a report is valid, and on the table it was made from no segment is already where it is to be
   * moved.
   */
  lemma ReportGivesValidUndo(airlines: seq<Airline>, since: Option<int>, segments: seq<Segment>)
    requires DistinctIds(segments)
    ensures var undo := UndoList(Candidates(airlines, since, segments));
            ValidUndo(undo) && NoneMovedByHand(segments, undo)
  {
    hide CandidateOf;
    var candidates := Candidates(airlines, since, segments);
    var undo := UndoList(candidates);
    CandidateIdsDiffer(airlines, since, segments);
    forall i | 0 <= i < |undo| ensures undo[i].fromAirlineId != undo[i].toAirlineId {
      CandidatesAreOfSegments(airlines, since, segments, candidates[i]);
      var k :| 0 <= k < |segments| && CandidateOf(airlines, since, segments[k]) == Some(candidates[i]);
      CandidateHasSegmentId(airlines, since, segments[k]);
    }
    forall k | 0 <= k < |segments|
      ensures var u := EntryFor(undo, segments[k].id); u.Some? ==> segments[k].airlineId != Some(u.value.toAirlineId)
    {
      EntryOfSegment(airlines, since, segments, k);
      CandidateHasSegmentId(airlines, since, segments[k]);
    }
  }

  lemma EntryOfSegment(airlines: seq<Airline>, since: Option<int>, segments: seq<Segment>, k: nat)
    requires DistinctIds(segments) && k < |segments|
    ensures var undo := UndoList(Candidates(airlines, since, segments));
            var c := CandidateOf(airlines, since, segments[k]);
            EntryFor(undo, segments[k].id)
            == if c.Some? then Some(UndoEntry(segments[k].id, c.value.oldAirlineId, c.value.newAirlineId)) else None
  {
    hide CandidateOf;
    var candidates := Candidates(airlines, since, segments);
    var undo := UndoList(candidates);
    var found := EntryFor(undo, segments[k].id);
    var c := CandidateOf(airlines, since, segments[k]);
    CandidateHasSegmentId(airlines, since, segments[k]);
    if found.Some? {
      var i :| 0 <= i < |undo| && undo[i] == found.value;
      CandidatesAreOfSegments(airlines, since, segments, candidates[i]);
      var m :| 0 <= m < |segments| && CandidateOf(airlines, since, segments[m]) == Some(candidates[i]);
      CandidateHasSegmentId(airlines, since, segments[m]);
      assert m == k;
    }
    if c.Some? {
      CandidatesAreOfSegments(airlines, since, segments, c.value);
      var i :| 0 <= i < |candidates| && candidates[i] == c.value;
      assert undo[i] in undo;
    }
  }

  /**
   * Crash-safe undo: whatever part of a run made from a report on this table was done, the undo gives back this table.
   */
  lemma InterruptedRunIsUndone(airlines: seq<Airline>, since: Option<int>, segments: seq<Segment>, n: nat)
    requires DistinctIds(segments) && n <= |UndoList(Candidates(airlines, since, segments))|
    ensures var undo := UndoList(Candidates(airlines, since, segments));
            Undone(Applied(segments, undo[..n]), undo) == segments
  {
    ReportGivesValidUndo(airlines, since, segments);
    UndoRestores(segments, UndoList(Candidates(airlines, since, segments)), n);
  }

  /**
   * Each row after a whole run: re-pointed to the airline that holds its code now if it was a candidate, else
   * untouched.
   */
  lemma FullRunRow(airlines: seq<Airline>, since: Option<int>, segments: seq<Segment>, k: nat)
    requires DistinctIds(segments) && k < |segments|
    ensures var c := CandidateOf(airlines, since, segments[k]);
            Applied(segments, UndoList(Candidates(airlines, since, segments)))[k]
            == if c.Some? then segments[k].(airlineId := Some(c.value.newAirlineId)) else segments[k]
  {
    hide CandidateOf;
    ReportGivesValidUndo(airlines, since, segments);
    EntryOfSegment(airlines, since, segments, k);
    CandidateHasSegmentId(airlines, since, segments[k]);
    OneEntryActs(segments[k], UndoList(Candidates(airlines, since, segments)));
  }

  /** A re-pointed segment is on an airline with a code, so it is neither a candidate nor on a retired row. */
  lemma RepointedIsSettled(airlines: seq<Airline>, since: Option<int>, s: Segment)
    requires ValidAirlines(airlines) && CandidateOf(airlines, since, s).Some?
    ensures OnRetired(airlines, since, s)
    ensures var s' := s.(airlineId := Some(CandidateOf(airlines, since, s).value.newAirlineId));
            !OnRetired(airlines, since, s') && CandidateOf(airlines, since, s').None?
  {
    hide Btrim, Upper;
    var c := ActiveWithIata(airlines, Upper(Btrim(s.rawCode.value))).value;
    SameId(airlines, c, WithId(airlines, c.id).value);
  }

  lemma {:induction false} SecondReportCounts(airlines: seq<Airline>, since: Option<int>, segments: seq<Segment>,
                                              after: seq<Segment>)
    requires ValidAirlines(airlines) && |after| == |segments|
    requires forall k :: 0 <= k < |segments| ==>
               var c := CandidateOf(airlines, since, segments[k]);
               after[k] == if c.Some? then segments[k].(airlineId := Some(c.value.newAirlineId)) else segments[k]
    ensures Candidates(airlines, since, after) == []
    ensures NotInferable(airlines, since, after) == NotInferable(airlines, since, segments)
  {
    hide OnRetired, CandidateOf;
    if segments != [] {
      var n := |segments| - 1;
      SecondReportCounts(airlines, since, segments[..n], after[..n]);
      if CandidateOf(airlines, since, segments[n]).Some? {
        RepointedIsSettled(airlines, since, segments[n]);
      }
    }
  }

  /** A second report after a whole run finds nothing more to do, and the same segments that cannot be inferred. */
  lemma SecondRunFindsNothing(airlines: seq<Airline>, since: Option<int>, segments: seq<Segment>)
    requires ValidAirlines(airlines) && DistinctIds(segments)
    ensures var after := Applied(segments, UndoList(Candidates(airlines, since, segments)));
            && Candidates(airlines, since, after) == []
            && NotInferable(airlines, since, after) == NotInferable(airlines, since, segments)
  {
    var after := Applied(segments, UndoList(Candidates(airlines, since, segments)));
    forall k | 0 <= k < |segments|
      ensures var c := CandidateOf(airlines, since, segments[k]);
              after[k] == if c.Some? then segments[k].(airlineId := Some(c.value.newAirlineId)) else segments[k]
    {
      FullRunRow(airlines, since, segments, k);
    }
    SecondReportCounts(airlines, since, segments, after);
  }

  /** Undisturbed, every update finds its row: `applied` is the number of candidates and nothing is skipped. */
  lemma {:induction false} EveryUpdateHits(airlines: seq<Airline>, since: Option<int>, segments: seq<Segment>, n: nat)
    requires DistinctIds(segments) && n <= |UndoList(Candidates(airlines, since, segments))|
    ensures AppliedCount(segments, UndoList(Candidates(airlines, since, segments))[..n]) == n
  {
    hide CandidateOf;
    var candidates := Candidates(airlines, since, segments);
    var undo := UndoList(candidates);
    if n > 0 {
      EveryUpdateHits(airlines, since, segments, n - 1);
      assert undo[..n][..n - 1] == undo[..n - 1];
      CandidatesAreOfSegments(airlines, since, segments, candidates[n - 1]);
      var k :| 0 <= k < |segments| && CandidateOf(airlines, since, segments[k]) == Some(candidates[n - 1]);
      CandidateHasSegmentId(airlines, since, segments[k]);
      ReportGivesValidUndo(airlines, since, segments);
      LastIsUntouched(segments[k], undo[..n]);
      assert Applied(segments, undo[..n - 1])[k] == segments[k];
    }
  }

  lemma LastIsUntouched(s: Segment, undo: seq<UndoEntry>)
    requires ValidUndo(undo) && undo != [] && undo[|undo| - 1].segmentId == s.id
    ensures AppliedRow(s, undo[..|undo| - 1]) == s
  {
    var earlier := undo[..|undo| - 1];
    OneEntryActs(s, earlier);
    forall u | u in earlier ensures u.segmentId != s.id {
    }
  }

  lemma {:induction false} MovedByInterruptedRun(airlines: seq<Airline>, since: Option<int>, segments: seq<Segment>,
                                                 n: nat, m: nat)
    requires DistinctIds(segments)
    requires n <= |UndoList(Candidates(airlines, since, segments))|
    requires m <= |UndoList(Candidates(airlines, since, segments))|
    ensures var undo := UndoList(Candidates(airlines, since, segments));
            |Moved(Applied(segments, undo[..n]), undo, m)| == if m < n then m else n
  {
    var undo := UndoList(Candidates(airlines, since, segments));
    var after := Applied(segments, undo[..n]);
    if m > 0 {
      hide Candidates, CandidateOf, Applied, PointsAt, Moved, InPlace, UndoList;
      assert m <= |undo|;
      MovedByInterruptedRun(airlines, since, segments, n, m - 1);
      WhereAfterRun(airlines, since, segments, n, m - 1);
      OneMoreEntry(after, undo, m - 1);
      AddsOne(Moved(after, undo, m - 1), m - 1,
              PointsAt(after, undo[m - 1].segmentId, undo[m - 1].toAirlineId));
    }
  }

  /** Undoing a run that was interrupted after `n` updates restores `n` segments and skips the others. */
  lemma UndoCountsWhatWasDone(airlines: seq<Airline>, since: Option<int>, segments: seq<Segment>, n: nat)
    requires DistinctIds(segments) && n <= |UndoList(Candidates(airlines, since, segments))|
    ensures var undo := UndoList(Candidates(airlines, since, segments));
            UndoneCount(Applied(segments, undo[..n]), undo) == n
  {
    hide Candidates, CandidateOf, Applied, Moved, UndoneCount, UndoList;
    var undo := UndoList(Candidates(airlines, since, segments));
    ReportGivesValidUndo(airlines, since, segments);
    assert undo[..|undo|] == undo;
    CountersTell(Applied(segments, undo[..n]), undo, |undo|);
    MovedByInterruptedRun(airlines, since, segments, n, |undo|);
  }

  /** A listed segment is on its new airline after `n` updates exactly if it was among them. */
  lemma WhereAfterRun(airlines: seq<Airline>, since: Option<int>, segments: seq<Segment>, n: nat, i: nat)
    requires DistinctIds(segments)
    requires n <= |UndoList(Candidates(airlines, since, segments))| && i < |Candidates(airlines, since, segments)|
    ensures var undo := UndoList(Candidates(airlines, since, segments));
            PointsAt(Applied(segments, undo[..n]), undo[i].segmentId, undo[i].toAirlineId) <==> i < n
  {
    hide CandidateOf, AppliedRow, UndoneRow;
    var candidates := Candidates(airlines, since, segments);
    var undo := UndoList(candidates);
    CandidatesAreOfSegments(airlines, since, segments, candidates[i]);
    var k :| 0 <= k < |segments| && CandidateOf(airlines, since, segments[k]) == Some(candidates[i]);
    CandidateHasSegmentId(airlines, since, segments[k]);
    ReportGivesValidUndo(airlines, since, segments);
    EntryOfPrefix(undo, n, segments[k].id);
    OneEntryActs(segments[k], undo[..n]);
    if i < n {
      assert undo[..n][i] == undo[i] && undo[i] in undo[..n];
      OnlyEntry(undo[..n], undo[i]);
      assert PointsAt([AppliedRow(segments[k], undo[..n])], undo[i].segmentId, undo[i].toAirlineId) by {
        assert [AppliedRow(segments[k], undo[..n])][0].id == undo[i].segmentId;
      }
      assert Applied(segments, undo[..n])[k] == AppliedRow(segments[k], undo[..n]);
    } else {
      forall u | u in undo[..n] ensures u.segmentId != segments[k].id {
        var j :| 0 <= j < n && undo[j] == u;
      }
      UntouchedByOthers(segments[k], undo[..n]);
      forall m | 0 <= m < |segments| && Applied(segments, undo[..n])[m].id == undo[i].segmentId ensures m == k {
        IdStays(segments[m], undo[..n]);
      }
      assert Applied(segments, undo[..n])[k] == segments[k];
    }
  }

  lemma OnlyEntry(undo: seq<UndoEntry>, u: UndoEntry)
    requires ValidUndo(undo) && u in undo
    ensures EntryFor(undo, u.segmentId) == Some(u)
  {
    var v := EntryFor(undo, u.segmentId).value;
    var i :| 0 <= i < |undo| && undo[i] == u;
    var j :| 0 <= j < |undo| && undo[j] == v;
  }

  const RETIRED := Airline(1, "Old", None, None, false)
  const HOLDER := Airline(2, "New", None, Some("AA"), true)
  const REPORTED := Segment("s", Some(1), Some("AA"), 0)
  const EDITED := Segment("s", Some(2), Some("AA"), 0)

  /** The report on a segment of a retired airline whose code another airline holds now. */
  lemma ReportOfOne()
    ensures ValidAirlines([RETIRED, HOLDER])
            && UndoList(Candidates([RETIRED, HOLDER], None, [REPORTED])) == [UndoEntry("s", 1, 2)]
  {
    var airlines := [RETIRED, HOLDER];
    assert Btrim("AA") == "AA" && Upper("AA") == "AA";
    assert airlines[1..] == [HOLDER] && WithId(airlines, 1) == Some(RETIRED);
    assert ActiveWithIata(airlines, "AA") == Some(HOLDER);
    assert CandidateOf(airlines, None, REPORTED) == Some(Candidate("s", 1, "Old", None, 2, "New", "AA", 0));
    assert [REPORTED][..0] == [];
  }

  /**
   * An undo list may move a segment the run never touched: somebody moves the reported segment to its new airline by
   * hand, the run made from the report skips it, and the undo moves it back all the same.
   */
  lemma UndoMovesHandMadeChange()
    ensures var undo := UndoList(Candidates([RETIRED, HOLDER], None, [REPORTED]));
            && AppliedCount([EDITED], undo) == 0 && Applied([EDITED], undo) == [EDITED]
            && Undone(Applied([EDITED], undo), undo) == [REPORTED] != [EDITED]
  {
    hide Candidates;
    ReportOfOne();
    var undo := [UndoEntry("s", 1, 2)];
    assert undo[..0] == [];
    assert AppliedRow(EDITED, undo) == EDITED && UndoneRow(EDITED, undo) == REPORTED;
    assert Applied([EDITED], []) == [EDITED];
    assert Undone([EDITED], undo)[0] == REPORTED;
  }
}
