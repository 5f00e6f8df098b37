/**
 The tariff in memory: 300 transaction types of ten slots each, filled from the set-up rows of the local database. A row
 lists the codes it holds for, each followed by a comma; code 8a + b goes to slot b of transaction type a.
 */
module TariffTable {
  import opened Common

  // ---------- Codes as text ----------

  function Digit(c: char): nat
    requires IsDigit(c)
  {
    (c as int) - ('0' as int)
  }

  predicate IsSpace(c: char) {
    c == ' ' || '\t' <= c <= '\r'
  }

  // The value of the leading digits of text, after those that made up value.
  function LeadingDigits(text: string, value: nat): nat {
    if text == "" || !IsDigit(text[0]) then value
    else LeadingDigits(text[1..], 10 * value + Digit(text[0]))
  }

  const MAX_INT := 0x7FFF_FFFF

  function Signed(text: string, negative: bool): Option<int> {
    if text == "" || !IsDigit(text[0]) then None
    else
      var digits: int := LeadingDigits(text, 0);
      var value := if negative then -digits else digits;
      if -MAX_INT - 1 <= value <= MAX_INT then Some(value) else None
  }

  /** A number read the way std::stoi does: spaces and a sign may come first, anything may follow; None is its exception. */
  function Stoi(text: string): Option<int> {
    if text == "" then None
    else if IsSpace(text[0]) then Stoi(text[1..])
    else if text[0] == '-' || text[0] == '+' then Signed(text[1..], text[0] == '-')
    else Signed(text, false)
  }

  function Decimal(n: nat): (text: string)
    ensures text != "" && forall c :: c in text ==> IsDigit(c)
    ensures text[0] == '0' <==> n == 0
  {
    (if n < 10 then "" else Decimal(n / 10)) + [(n % 10 + '0' as int) as char]
  }

  function Numeral(n: int): string {
    if n < 0 then "-" + Decimal(-n) else Decimal(n)
  }

  lemma {:induction false} LeadingDigitsAppend(text: string, value: nat, c: char)
    requires (forall d :: d in text ==> IsDigit(d)) && IsDigit(c)
    ensures LeadingDigits(text + [c], value) == 10 * LeadingDigits(text, value) + Digit(c)
  {
    if text == "" {
      assert (text + [c])[1..] == "";
    } else {
      assert (text + [c])[1..] == text[1..] + [c];
      LeadingDigitsAppend(text[1..], 10 * value + Digit(text[0]), c);
    }
  }

  lemma {:induction false} DecimalReadBack(n: nat)
    ensures LeadingDigits(Decimal(n), 0) == n
  {
    var rest := if n < 10 then "" else Decimal(n / 10);
    if n >= 10 { DecimalReadBack(n / 10); }
    LeadingDigitsAppend(rest, 0, (n % 10 + '0' as int) as char);
  }

  // ---------- What a code text means ----------

  predicate AllDigits(text: string) {
    forall c :: c in text ==> IsDigit(c)
  }

  lemma {:induction false} LeadingDigitsOnly(digits: string, rest: string, value: nat)
    requires AllDigits(digits) && (rest == "" || !IsDigit(rest[0]))
    ensures LeadingDigits(digits + rest, value) == LeadingDigits(digits, value)
    decreases |digits|
  {
    if digits == "" {
      assert digits + rest == rest;
    } else {
      var text := digits + rest;
      assert text[0] == digits[0] && text[1..] == digits[1..] + rest;
      assert forall c :: c in digits[1..] ==> c in digits;
      LeadingDigitsOnly(digits[1..], rest, 10 * value + Digit(digits[0]));
    }
  }

  lemma {:induction false} SpacesSkipped(spaces: string, text: string)
    requires forall c :: c in spaces ==> c == ' ' || ('\t' <= c && c <= '\r')
    ensures Stoi(spaces + text) == Stoi(text)
    decreases |spaces|
  {
    if spaces == "" {
      assert spaces + text == text;
    } else {
      assert (spaces + text)[1..] == spaces[1..] + text && spaces[0] in spaces;
      assert forall c :: c in spaces[1..] ==> c in spaces;
      SpacesSkipped(spaces[1..], text);
    }
  }

  /** A code text means the number of its digits, which may follow spaces and a sign and may be followed by anything, if it fits
      32 bits; text without digits there means nothing. */
  lemma StoiMeaning(spaces: string, sign: string, n: nat, rest: string)
    requires forall c :: c in spaces ==> c == ' ' || ('\t' <= c && c <= '\r')
    requires sign == "" || sign == "+" || sign == "-"
    requires rest == "" || !IsDigit(rest[0])
    ensures var size: int := n;
            var value := if sign == "-" then -size else size;
            Stoi(spaces + (sign + (Decimal(n) + rest))) == if -0x8000_0000 <= value <= 0x7FFF_FFFF then Some(value) else None
    ensures sign != "" ==> Stoi(spaces + (sign + rest)) == None
  {
    var digits := Decimal(n);
    DecimalReadBack(n);
    LeadingDigitsOnly(digits, rest, 0);
    assert digits[0] in digits;
    SpacesSkipped(spaces, sign + (digits + rest));
    SpacesSkipped(spaces, sign + rest);
    hide LeadingDigits, Decimal;
    assert (digits + rest)[0] == digits[0];
    if sign == "" {
      assert sign + (digits + rest) == digits + rest;
    } else {
      assert (sign + (digits + rest))[1..] == digits + rest && (sign + rest)[1..] == rest;
    }
  }

  /** A number is written with a sign if it is negative, without leading zeros, and reads back as itself. */
  lemma NumeralReadBack(n: int)
    requires -0x8000_0000 <= n <= 0x7FFF_FFFF
    ensures var text := Numeral(n);
            && Stoi(text) == Some(n)
            && text != "" && (text[0] == '-' <==> n < 0) && (text[0] == '0' <==> n == 0)
            && (n < 0 ==> |text| >= 2 && text[1] != '0')
  {
    var sign, size: nat := if n < 0 then "-" else "", if n < 0 then -n else n;
    StoiMeaning("", sign, size, "");
    assert "" + (sign + (Decimal(size) + "")) == Numeral(n) by {
      assert Decimal(size) + "" == Decimal(size) && "" + Decimal(size) == Decimal(size);
    }
    hide Stoi, Decimal;
    assert Decimal(size)[0] in Decimal(size);
  }

  // ---------- Pieces between commas ----------

  function Split(text: string): (pieces: seq<string>)
    ensures |pieces| >= 1
  {
    if text == "" then [""]
    else
      var rest := Split(text[1..]);
      if text[0] == ',' then [""] + rest else [[text[0]] + rest[0]] + rest[1..]
  }

  function Listed(codes: seq<nat>): string {
    if codes == [] then "" else Decimal(codes[0]) + "," + Listed(codes[1..])
  }

  lemma {:induction false} SplitFirst(first: string, rest: string)
    requires ',' !in first
    ensures Split(first + "," + rest) == [first] + Split(rest)
  {
    if first == "" {
      assert first + "," + rest == "," + rest;
    } else {
      var text := first + "," + rest;
      assert text[0] == first[0] && text[1..] == first[1..] + "," + rest;
      SplitFirst(first[1..], rest);
      var pieces := [first[1..]] + Split(rest);
      assert pieces[1..] == Split(rest) && [first[0]] + first[1..] == first;
    }
  }

  // ---------- Rows and slots ----------

  datatype ZoneText = ZoneText(start: string, end: string, others: seq<string>)

  datatype Columns = Columns(id: string, dayIndex: string, zones: seq<ZoneText>, day: seq<string>)

  datatype SetupRow = SetupRow(columns: Columns, dayTypes: string)

  datatype Slot = Slot(dayType: string, columns: Columns)

  // A missing time is stored as an empty one.
  function NoNull(text: string): string {
    if text == "NULL" then "" else text
  }

  function CleanZones(zones: seq<ZoneText>): (clean: seq<ZoneText>)
    ensures |clean| == |zones|
  {
    seq(|zones|, k requires 0 <= k < |zones| => ZoneText(NoNull(zones[k].start), NoNull(zones[k].end), zones[k].others))
  }

  function Clean(columns: Columns): Columns {
    columns.(zones := CleanZones(columns.zones))
  }

  /** A missing time of a zone is stored as an empty one; everything else is stored as it is. */
  lemma CleanTimes(columns: Columns)
    ensures var clean := Clean(columns);
            && clean.id == columns.id && clean.dayIndex == columns.dayIndex && clean.day == columns.day
            && |clean.zones| == |columns.zones|
            && forall k :: 0 <= k < |columns.zones| ==>
                 && clean.zones[k].start == (if columns.zones[k].start == "NULL" then "" else columns.zones[k].start)
                 && clean.zones[k].end == (if columns.zones[k].end == "NULL" then "" else columns.zones[k].end)
                 && clean.zones[k].others == columns.zones[k].others
  {
  }

  const TYPES := 300
  const SLOTS := 10

  // Codes that have a slot.
  predicate InRange(code: int) {
    code <= 8 * TYPES && (code > 0 || code % 8 == 0)
  }

  function SlotOf(code: int): (slot: (int, int))
    requires InRange(code)
    ensures 0 <= slot.0 < TYPES && 1 <= slot.1 <= 8
  {
    if code <= 0 then (0, 8)
    else if code % 8 != 0 then (code / 8, code % 8)
    else (code / 8 - 1, 8)
  }

  /** Codes from 1 on and slots 1 to 8 of each transaction type correspond one to one; code 0 and its negative multiples of 8
      share the slot of code 8. */
  lemma CodesAndSlots(code: int, a: int, b: int)
    requires 0 <= a < TYPES && 1 <= b <= 8 && InRange(code)
    ensures InRange(8 * a + b) && SlotOf(8 * a + b) == (a, b)
    ensures code > 0 ==> 8 * SlotOf(code).0 + SlotOf(code).1 == code
    ensures SlotOf(code) == (a, b) <==> code == 8 * a + b || (code <= 0 && a == 0 && b == 8)
  {
  }

  // The quotient rounded toward zero, and the remainder with the sign of the code.
  predicate Divides8(code: int, quotient: int, remainder: int) {
    code == 8 * quotient + remainder && -8 < remainder < 8 && (code > 0 ==> remainder >= 0) && (code < 0 ==> remainder <= 0)
  }

  /** A code has a slot exactly when the place the division gives is one of the table's. */
  lemma SlotOfCode(code: int, quotient: int, remainder: int)
    requires Divides8(code, quotient, remainder)
    ensures var a := if remainder != 0 then quotient else if quotient < 1 then 0 else quotient - 1;
            var b := if remainder != 0 then remainder else 8;
            && (InRange(code) <==> 0 <= a < TYPES && 1 <= b <= 8)
            && (InRange(code) ==> SlotOf(code) == (a, b))
  {
  }

  // ---------- What the rows say ----------

  // One code text of one row, in the order they are loaded.
  datatype Entry = Entry(text: string, columns: Columns)

  function RowEntries(row: SetupRow): seq<Entry> {
    var pieces := Split(row.dayTypes);
    seq(|pieces| - 1, i requires 0 <= i < |pieces| - 1 => Entry(pieces[i], Clean(row.columns)))
  }

  function Entries(rows: seq<SetupRow>): seq<Entry> {
    if rows == [] then [] else Entries(rows[..|rows| - 1]) + RowEntries(rows[|rows| - 1])
  }

  predicate Reads(entries: seq<Entry>) {
    forall e :: e in entries ==> Stoi(e.text).Some?
  }

  predicate AllInRange(entries: seq<Entry>) {
    forall e :: e in entries && Stoi(e.text).Some? ==> InRange(Stoi(e.text).value)
  }

  function CodeOf(e: Entry): (code: int)
    requires Stoi(e.text).Some? && InRange(Stoi(e.text).value)
    ensures InRange(code)
  {
    Stoi(e.text).value
  }

  // The whole table, slot by slot.
  type Table = map<(int, int), Slot>

  // The table after the entries are loaded into it, one by one.
  function Load(entries: seq<Entry>, table: Table): Table
    requires Reads(entries) && AllInRange(entries)
  {
    if entries == [] then table
    else
      var e := entries[|entries| - 1];
      Load(entries[..|entries| - 1], table)[SlotOf(CodeOf(e)) := Slot(Numeral(CodeOf(e)), e.columns)]
  }

  // The entries before the first that cannot be read.
  function Readable(entries: seq<Entry>): (prefix: seq<Entry>)
    ensures prefix <= entries && Reads(prefix)
    ensures |prefix| < |entries| ==> Stoi(entries[|prefix|].text).None?
    ensures AllInRange(entries) ==> AllInRange(prefix)
  {
    if entries == [] || Stoi(entries[0].text).None? then []
    else
      var rest := Readable(entries[1..]);
      assert AllInRange(entries) ==> AllInRange(entries[1..]);
      [entries[0]] + rest
  }

  lemma LoadOneMore(entries: seq<Entry>, e: Entry, table: Table)
    requires Reads(entries + [e]) && AllInRange(entries + [e])
    ensures Reads(entries) && AllInRange(entries) && e in entries + [e]
    ensures Load(entries + [e], table)
         == Load(entries, table)[SlotOf(CodeOf(e)) := Slot(Numeral(CodeOf(e)), e.columns)]
  {
    assert (entries + [e])[..|entries|] == entries;
    forall d | d in entries ensures d in entries + [e] {}
  }

  lemma {:induction false} LoadBoth(first: seq<Entry>, second: seq<Entry>, table: Table)
    requires Reads(first) && AllInRange(first) && Reads(second) && AllInRange(second)
    ensures Reads(first + second) && AllInRange(first + second)
    ensures Load(first + second, table) == Load(second, Load(first, table))
  {
    if second == [] {
      assert first + second == first;
    } else {
      var n := |second| - 1;
      assert first + second == (first + second[..n]) + [second[n]];
      LoadBoth(first, second[..n], table);
      LoadOneMore(first + second[..n], second[n], table);
    }
  }

  // The readable entries end at the first unreadable one.
  lemma {:induction false} ReadableEnds(entries: seq<Entry>, k: nat)
    requires k <= |entries| && Reads(entries[..k])
    requires k < |entries| ==> Stoi(entries[k].text).None?
    ensures Readable(entries) == entries[..k]
  {
    if k > 0 {
      assert entries[0] in entries[..k] && entries[..k] == [entries[0]] + entries[1..][..k - 1];
      ReadableEnds(entries[1..], k - 1);
    }
  }

  // Reading that stops inside a row has read the entries before the first unreadable one.
  lemma StopsAt(entries: seq<Entry>, done: seq<Entry>, row: seq<Entry>, read: nat)
    requires done + row <= entries && read < |row|
    requires Reads(done + row[..read]) && Stoi(row[read].text).None?
    ensures !Reads(entries) && Readable(entries) == done + row[..read]
  {
    var k := |done| + read;
    assert entries[k] == (done + row)[k] == row[read] && entries[k] in entries;
    assert entries[..k] == (done + row)[..k] == done + row[..read];
    ReadableEnds(entries, k);
  }

  lemma {:induction false} EarlierEntries(rows: seq<SetupRow>, j: nat)
    requires j <= |rows|
    ensures Entries(rows[..j]) <= Entries(rows)
  {
    hide RowEntries;
    if j < |rows| {
      EarlierEntries(rows[..|rows| - 1], j);
      assert rows[..|rows| - 1][..j] == rows[..j];
    } else {
      assert rows[..j] == rows;
    }
  }

  // The entries of one row follow those of the rows before it.
  lemma NextRow(rows: seq<SetupRow>, j: nat)
    requires j < |rows|
    ensures Entries(rows[..j + 1]) == Entries(rows[..j]) + RowEntries(rows[j])
    ensures Entries(rows[..j + 1]) <= Entries(rows)
    ensures AllInRange(Entries(rows)) ==> AllInRange(RowEntries(rows[j]))
  {
    hide RowEntries;
    assert rows[..j + 1][..j] == rows[..j];
    assert Entries(rows[..j + 1]) == Entries(rows[..j]) + RowEntries(rows[j]);
    EarlierEntries(rows, j + 1);
    forall e | e in RowEntries(rows[j]) ensures e in Entries(rows) {
      assert e in Entries(rows[..j + 1]);
    }
  }

  // ---------- Which row a slot holds ----------

  /** The row lists the code: as one of its texts that a comma follows. */
  predicate Lists(row: SetupRow, code: int) {
    exists e :: e in RowEntries(row) && Stoi(e.text) == Some(code)
  }

  // A code that is no positive number but has a slot.
  predicate ListsNone(row: SetupRow) {
    exists e :: e in RowEntries(row) && Stoi(e.text).Some? && Stoi(e.text).value <= 0 && InRange(Stoi(e.text).value)
  }

  // The codes of a slot: that of code 8 takes these too.
  predicate ListsFor(row: SetupRow, a: int, b: int) {
    Lists(row, 8 * a + b) || (a == 0 && b == 8 && ListsNone(row))
  }

  // The last of the rows that lists a code of the slot.
  function LastFor(rows: seq<SetupRow>, a: int, b: int): Option<SetupRow> {
    if rows == [] then None
    else if ListsFor(rows[|rows| - 1], a, b) then Some(rows[|rows| - 1])
    else LastFor(rows[..|rows| - 1], a, b)
  }

  predicate IsSlot(a: int, b: int) {
    0 <= a < TYPES && 1 <= b <= 8
  }

  // One of the entries is for the slot.
  predicate Fills(entries: seq<Entry>, a: int, b: int)
    requires Reads(entries) && AllInRange(entries)
  {
    exists e :: e in entries && SlotOf(CodeOf(e)) == (a, b)
  }

  // A row has an entry for the slot exactly when it lists one of its codes.
  lemma FillsWhatItLists(row: SetupRow, a: int, b: int)
    requires Reads(RowEntries(row)) && AllInRange(RowEntries(row)) && IsSlot(a, b)
    ensures Fills(RowEntries(row), a, b) <==> ListsFor(row, a, b)
  {
    hide RowEntries, Stoi, SlotOf;
    forall e | e in RowEntries(row)
      ensures SlotOf(CodeOf(e)) == (a, b) <==> CodeOf(e) == 8 * a + b || (CodeOf(e) <= 0 && a == 0 && b == 8)
    {
      CodesAndSlots(CodeOf(e), a, b);
    }
  }

  /** What a slot holds after some entries of one row: the row's columns once one of them was for the slot. */
  lemma {:induction false} OneRowFills(row: SetupRow, entries: seq<Entry>, table: Table, a: int, b: int)
    requires Reads(entries) && AllInRange(entries) && IsSlot(a, b) && (a, b) in table
    requires forall e :: e in entries ==> e.columns == Clean(row.columns)
    ensures (a, b) in Load(entries, table)
    ensures var slot := Load(entries, table)[(a, b)];
            if Fills(entries, a, b) then
              slot.columns == Clean(row.columns) && (8 * a + b != 8 ==> slot.dayType == Numeral(8 * a + b))
            else slot == table[(a, b)]
  {
    if entries != [] {
      var n := |entries| - 1;
      assert entries == entries[..n] + [entries[n]];
      assert forall e :: e in entries <==> e in entries[..n] || e == entries[n];
      OneRowFills(row, entries[..n], table, a, b);
      LoadOneMore(entries[..n], entries[n], table);
      CodesAndSlots(CodeOf(entries[n]), a, b);
    }
  }

  lemma RowFills(row: SetupRow, table: Table, a: int, b: int)
    requires Reads(RowEntries(row)) && AllInRange(RowEntries(row)) && IsSlot(a, b) && (a, b) in table
    ensures (a, b) in Load(RowEntries(row), table)
    ensures var slot := Load(RowEntries(row), table)[(a, b)];
            if ListsFor(row, a, b) then
              slot.columns == Clean(row.columns) && (8 * a + b != 8 ==> slot.dayType == Numeral(8 * a + b))
            else slot == table[(a, b)]
  {
    hide RowEntries, Load, Clean, Fills, ListsFor, Stoi, SlotOf, Numeral;
    FillsWhatItLists(row, a, b);
    assert forall e :: e in RowEntries(row) ==> e.columns == Clean(row.columns) by { EntryColumns(row); }
    OneRowFills(row, RowEntries(row), table, a, b);
  }

  lemma EntryColumns(row: SetupRow)
    ensures forall e :: e in RowEntries(row) ==> e.columns == Clean(row.columns)
  {
    hide Clean, Split;
  }

  /** After a successful load every slot holds the columns of the last row that lists its code, and a slot no row lists
      is unchanged. */
  lemma {:induction false} TableHoldsLastRows(rows: seq<SetupRow>, table: Table, a: int, b: int)
    requires Reads(Entries(rows)) && AllInRange(Entries(rows)) && IsSlot(a, b) && (a, b) in table
    ensures (a, b) in Load(Entries(rows), table)
    ensures var slot := Load(Entries(rows), table)[(a, b)];
            match LastFor(rows, a, b)
            case None => slot == table[(a, b)]
            case Some(row) =>
              slot.columns == Clean(row.columns) && (8 * a + b != 8 ==> slot.dayType == Numeral(8 * a + b))
  {
    if rows != [] {
      var n := |rows| - 1;
      var init, last := rows[..n], rows[n];
      hide RowEntries, ListsFor, Clean, Load;
      assert Entries(rows) == Entries(init) + RowEntries(last);
      assert forall e :: e in Entries(init) || e in RowEntries(last) ==> e in Entries(rows);
      TableHoldsLastRows(init, table, a, b);
      RowFills(last, Load(Entries(init), table), a, b);
      LoadBoth(Entries(init), RowEntries(last), table);
    }
  }

  lemma DecimalStoi(n: nat)
    requires n <= MAX_INT
    ensures Stoi(Decimal(n)) == Some(n)
  {
    DecimalReadBack(n);
    assert Decimal(n)[0] in Decimal(n);
  }

  lemma {:induction false} ListedCodesSplit(codes: seq<nat>)
    ensures Split(Listed(codes)) == seq(|codes|, i requires 0 <= i < |codes| => Decimal(codes[i])) + [""]
  {
    if codes != [] {
      ListedCodesSplit(codes[1..]);
      SplitFirst(Decimal(codes[0]), Listed(codes[1..]));
    }
  }

  /** The codes a row was written with, each followed by a comma, are the codes it lists. */
  lemma RowListsItsCodes(codes: seq<nat>, columns: Columns, code: nat)
    requires forall c :: c in codes ==> c <= MAX_INT
    ensures Lists(SetupRow(columns, Listed(codes)), code) <==> code in codes
  {
    var row := SetupRow(columns, Listed(codes));
    ListedCodesSplit(codes);
    forall i | 0 <= i < |codes| ensures Stoi(Decimal(codes[i])) == Some(codes[i]) {
      assert codes[i] in codes;
      DecimalStoi(codes[i]);
    }
    hide Stoi, Split, Listed, Decimal;
    assert |RowEntries(row)| == |codes|;
    assert forall i :: 0 <= i < |codes| ==> RowEntries(row)[i].text == Decimal(codes[i]);
    if code in codes {
      var i :| 0 <= i < |codes| && codes[i] == code;
      assert RowEntries(row)[i] in RowEntries(row) && Stoi(RowEntries(row)[i].text) == Some(code);
    }
  }

  // ---------- The entries of a row, one by one ----------

  lemma EntriesOfRow(row: SetupRow)
    ensures |RowEntries(row)| == |Split(row.dayTypes)| - 1
    ensures forall k :: 0 <= k < |RowEntries(row)| ==> RowEntries(row)[k] == Entry(Split(row.dayTypes)[k], Clean(row.columns))
  {
    hide Split, Clean;
  }

  lemma NothingRead(entries: seq<Entry>, table: Table)
    ensures Reads(entries[..0]) && AllInRange(entries[..0]) && Load(entries[..0], table) == table
  {
  }

  lemma OneRead(entries: seq<Entry>, i: nat, table: Table)
    requires i < |entries| && AllInRange(entries) && Reads(entries[..i]) && AllInRange(entries[..i])
    requires Stoi(entries[i].text).Some?
    ensures Reads(entries[..i + 1]) && AllInRange(entries[..i + 1])
    ensures var code := Stoi(entries[i].text).value;
            InRange(code)
            && Load(entries[..i + 1], table) == Load(entries[..i], table)[SlotOf(code) := Slot(Numeral(code), entries[i].columns)]
  {
    hide Load, Stoi, SlotOf, InRange, Numeral;
    assert entries[i] in entries;
    assert entries[..i + 1] == entries[..i] + [entries[i]];
    LoadOneMore(entries[..i], entries[i], table);
  }

  // ---------- The table ----------

  function EntriesOf(selection: Selection): seq<Entry> {
    if selection.Failed? then [] else Entries(selection.rows)
  }

  datatype Status = Success | LocalFail | NoData

  // What a select on the local database gives.
  datatype Selection = Failed | Rows(rows: seq<SetupRow>)

  /** The table in memory. Codes outside the table are not checked: as in the source, the rows must not list any. */
  class TariffMemory {
    const slots: array2<Slot>

    ghost predicate Valid() {
      slots.Length0 == TYPES && slots.Length1 == SLOTS
    }

    constructor ()
      ensures Valid() && fresh(slots)
    {
      slots := new Slot[TYPES, SLOTS]((i, j) => Slot("", Columns("", "", [], [])));
    }

    ghost function Contents(): Table
      requires Valid()
      reads slots
    {
      map a, b | 0 <= a < TYPES && 0 <= b < SLOTS :: (a, b) := slots[a, b]
    }

    method WriteTariff2RAM(code: int, columns: Columns)
      requires Valid() && InRange(code)
      modifies slots
      ensures Contents() == old(Contents())[SlotOf(code) := Slot(Numeral(code), columns)]
    {
      var a, b := code / 8, code % 8;
      if b == 0 {
        b, a := 8, a - 1;
        if a < 0 { a := 0; }
      }
      assert (a, b) == SlotOf(code);
      hide SlotOf, InRange, Numeral;
      slots[a, b] := Slot(Numeral(code), columns);
    }

    /** One row: each of its codes but the text after the last comma. */
    method LoadRow(row: SetupRow) returns (ok: bool, ghost read: nat)
      requires Valid() && AllInRange(RowEntries(row))
      modifies slots
      ensures read <= |RowEntries(row)| && Reads(RowEntries(row)[..read])
      ensures if ok then read == |RowEntries(row)|
              else read < |RowEntries(row)| && Stoi(RowEntries(row)[read].text).None?
      ensures AllInRange(RowEntries(row)[..read])
      ensures Contents() == Load(RowEntries(row)[..read], old(Contents()))
    {
      var pieces := Split(row.dayTypes);
      var columns := Clean(row.columns);
      ghost var entries := RowEntries(row);
      EntriesOfRow(row);
      NothingRead(entries, Contents());
      hide RowEntries, Split, Clean, Load, Stoi, SlotOf, InRange, Numeral, Reads, AllInRange;
      ok, read := true, 0;
      for i := 0 to |pieces| - 1
        invariant read == i <= |entries|
        invariant Reads(entries[..i]) && AllInRange(entries[..i])
        invariant Contents() == Load(entries[..i], old(Contents()))
      {
        var code := Stoi(pieces[i]);
        assert entries[i] == Entry(pieces[i], columns);
        if code.None? { return false, i; }
        OneRead(entries, i, old(Contents()));
        WriteTariff2RAM(code.value, columns);
        read := i + 1;
      }
      assert entries[..|entries|] == entries;
    }

    /** The rows of a selection, in order, up to the first code that cannot be read. */
    method LoadRows(rows: seq<SetupRow>) returns (ok: bool)
      requires Valid() && AllInRange(Entries(rows))
      modifies slots
      ensures ok <==> Reads(Entries(rows))
      ensures Contents() == Load(Readable(Entries(rows)), old(Contents()))
    {
      ghost var entries := Entries(rows);
      ok := true;
      assert rows[..0] == [];
      for j := 0 to |rows|
        invariant Entries(rows[..j]) <= entries
        invariant Reads(Entries(rows[..j])) && AllInRange(Entries(rows[..j]))
        invariant Contents() == Load(Entries(rows[..j]), old(Contents()))
      {
        hide Load, RowEntries, Entries, Readable, Clean, InRange;
        ghost var done := Entries(rows[..j]);
        NextRow(rows, j);
        ghost var read;
        ok, read := LoadRow(rows[j]);
        ghost var more := RowEntries(rows[j])[..read];
        LoadBoth(done, more, old(Contents()));
        if !ok {
          StopsAt(entries, done, RowEntries(rows[j]), read);
          return;
        }
        assert more == RowEntries(rows[j]);
      }
      assert rows[..|rows|] == rows && entries[..|entries|] == entries;
      ReadableEnds(entries, |entries|);
    }

    /** The whole load. An empty selection is tried once more, after the set-up rows have been downloaded. */
    method LoadTariff(first: Selection, afterDownload: Selection) returns (status: Status)
      requires Valid() && AllInRange(EntriesOf(first)) && AllInRange(EntriesOf(afterDownload))
      modifies slots
      ensures var used := if first == Rows([]) then afterDownload else first;
              match used
              case Failed => status == LocalFail && Contents() == old(Contents())
              case Rows(rows) =>
                && status == (if rows == [] then NoData else if Reads(Entries(rows)) then Success else LocalFail)
                && Contents() == Load(Readable(Entries(rows)), old(Contents()))
    {
      var selection := first;
      var tried := false;
      while true
        invariant selection == if tried then afterDownload else first
        invariant tried ==> first == Rows([])
        invariant Contents() == old(Contents())
        decreases !tried
      {
        if selection.Failed? { return LocalFail; }
        if |selection.rows| > 0 {
          var ok := LoadRows(selection.rows);
          return if ok then Success else LocalFail;
        }
        if tried { return NoData; }
        selection, tried := afterDownload, true;
      }
    }
  }
}
