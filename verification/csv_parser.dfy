/**
 The CSV fallback parser (`parseCSVData`). The first line names the columns; every
 later line that is not blank becomes one record. Lines are split on "\n" and cells
 on ",", with no quoting; each cell is trimmed and then coerced by its column name.
 */
module CsvParser {
  import opened Wrappers
  import opened Seqs
  import opened Text
  import opened Numbers
  import opened Records

  /** A cell after coercion; which kind it is depends only on the column name. */
  datatype Cell =
    | TextCell(text: string)
    | AmountCell(amount: Option<real>)
    | IdCell(id: Option<int>)
    | RatingCell(rating: Option<int>)

  /** One property assignment `order[header] = value` of the record being built. */
  datatype Field = Field(name: string, value: Cell)

  /** Columns whose name contains "rating" hold ratings. */
  predicate IsRatingColumn(header: string)
  {
    Includes(header, "rating")
  }

  /** `value ? parseFloat(value) : 0`: an empty amount is 0, an unparsable one NaN (None). */
  function AmountValue(value: string): (a: Option<real>)
    ensures value == "" ==> a == Some(0.0)
    ensures value != "" && a.None? ==> ParseFloat(value).None?
  {
    if value == "" then Some(0.0) else ParseFloat(value)
  }

  /** `value === "" ? null : parseInt(value) || null`: NaN and 0 both become null. */
  function RatingValue(value: string): (r: Option<int>)
    ensures r.Some? <==> ParseInt(value).Some? && ParseInt(value).value != 0
    ensures r.Some? ==> r == ParseInt(value)
  {
    if value == "" then None
    else match ParseInt(value)
      case Some(n) => if n == 0 then None else Some(n)
      case None => None
  }

  /** Coerces the trimmed text of one cell according to its column name. */
  function Coerce(header: string, value: string): (c: Cell)
    ensures c.AmountCell? <==> header == "transaction_amount"
    ensures c.IdCell? <==> header == "order_id"
    ensures c.RatingCell? <==> IsRatingColumn(header)
    ensures c.TextCell? ==> c.text == value
    ensures c.AmountCell? ==> c.amount == AmountValue(value)
    ensures c.IdCell? ==> c.id == ParseInt(value)
    ensures c.RatingCell? ==> c.rating == RatingValue(value)
    ensures c.RatingCell? ==> c.rating != Some(0)
  {
    NotRatingColumn("transaction_amount", 'g');
    NotRatingColumn("order_id", 'g');
    if header == "transaction_amount" then AmountCell(AmountValue(value))
    else if header == "order_id" then IdCell(ParseInt(value))
    else if IsRatingColumn(header) then RatingCell(RatingValue(value))
    else TextCell(value)
  }

  /** The trimmed text of cell `i`; a missing trailing cell reads as "". */
  function CellText(values: seq<string>, i: nat): (t: string)
    ensures IsTrimmed(t)
    ensures i >= |values| ==> t == ""
  {
    if i < |values| then Trim(values[i]) else ""
  }

  /** The assignments made for one line: exactly one per header, in header order. */
  function Fields(headers: seq<string>, values: seq<string>): (fs: seq<Field>)
    ensures |fs| == |headers|
    ensures forall i :: 0 <= i < |headers| ==>
              fs[i] == Field(headers[i], Coerce(headers[i], CellText(values, i)))
  {
    seq(|headers|, i requires 0 <= i < |headers| => Field(headers[i], Coerce(headers[i], CellText(values, i))))
  }

  /**
   The value property `key` ends up holding: the last assignment to it, since a later
   assignment to the same property overwrites an earlier one.
   */
  function Lookup(fs: seq<Field>, key: string): Option<Cell>
  {
    if |fs| == 0 then None
    else if fs[|fs| - 1].name == key then Some(fs[|fs| - 1].value)
    else Lookup(fs[..|fs| - 1], key)
  }

  /**
   Lookup finds nothing exactly when no assignment names `key`, and otherwise
   the value of an assignment to `key` after which `key` is not assigned again.
   */
  lemma {:induction false} LookupSpec(fs: seq<Field>, key: string)
    ensures Lookup(fs, key).None? <==> forall i :: 0 <= i < |fs| ==> fs[i].name != key
    ensures Lookup(fs, key).Some? ==>
              exists i :: 0 <= i < |fs| && fs[i] == Field(key, Lookup(fs, key).value) &&
                          forall j :: i < j < |fs| ==> fs[j].name != key
  {
    if |fs| > 0 && fs[|fs| - 1].name == key {
      assert fs[|fs| - 1] == Field(key, Lookup(fs, key).value);
    } else if |fs| > 0 {
      var init := fs[..|fs| - 1];
      LookupSpec(init, key);
      assert Lookup(fs, key) == Lookup(init, key);
      assert forall i :: 0 <= i < |init| ==> init[i] == fs[i];
      if Lookup(init, key).Some? {
        var i :| 0 <= i < |init| && init[i] == Field(key, Lookup(init, key).value) &&
                 forall j :: i < j < |init| ==> init[j].name != key;
        assert fs[i] == Field(key, Lookup(fs, key).value);
        assert forall j :: i < j < |fs| ==> fs[j].name != key;
      }
    }
  }

  /** With distinct names, looking up the name of field `i` finds field `i`. */
  lemma LookupDistinct(fs: seq<Field>, i: nat)
    requires i < |fs|
    requires forall j, k :: 0 <= j < k < |fs| ==> fs[j].name != fs[k].name
    ensures Lookup(fs, fs[i].name) == Some(fs[i].value)
  {
    LookupSpec(fs, fs[i].name);
  }

  function TextOf(c: Option<Cell>): Option<string>
  {
    match c
    case Some(TextCell(t)) => Some(t)
    case _ => None
  }

  function AmountOf(c: Option<Cell>): Option<real>
  {
    match c
    case Some(AmountCell(a)) => a
    case _ => None
  }

  function IdOf(c: Option<Cell>): Option<int>
  {
    match c
    case Some(IdCell(n)) => n
    case _ => None
  }

  function RatingOf(c: Option<Cell>): Option<int>
  {
    match c
    case Some(RatingCell(r)) => r
    case _ => None
  }

  /** Reads the object built from the assignments as a Record; an absent column is None. */
  function ToRecord(fs: seq<Field>): (r: Record)
    ensures NoZeroRating(fs) ==>
              r.tasteRating != Some(0) && r.deliverySpeedRating != Some(0)
              && r.environmentRating != Some(0) && r.serviceRating != Some(0)
  {
    LookupKeepsNonZero(fs, "taste_rating");
    LookupKeepsNonZero(fs, "delivery_speed_rating");
    LookupKeepsNonZero(fs, "environment_rating");
    LookupKeepsNonZero(fs, "service_rating");
    Record(
      orderId := IdOf(Lookup(fs, "order_id")),
      date := TextOf(Lookup(fs, "date")),
      time := TextOf(Lookup(fs, "time")),
      itemName := TextOf(Lookup(fs, "item_name")),
      itemType := TextOf(Lookup(fs, "item_type")),
      transactionAmount := AmountOf(Lookup(fs, "transaction_amount")),
      orderType := TextOf(Lookup(fs, "order_type")),
      customerId := TextOf(Lookup(fs, "customer_id")),
      tasteRating := RatingOf(Lookup(fs, "taste_rating")),
      deliverySpeedRating := RatingOf(Lookup(fs, "delivery_speed_rating")),
      environmentRating := RatingOf(Lookup(fs, "environment_rating")),
      serviceRating := RatingOf(Lookup(fs, "service_rating")))
  }

  /** No assignment sets a rating to 0. */
  predicate NoZeroRating(fs: seq<Field>)
  {
    forall i :: 0 <= i < |fs| ==> fs[i].value != RatingCell(Some(0))
  }

  /** Reading a property from assignments none of which sets a rating to 0 gives no rating of 0. */
  lemma {:induction false} LookupKeepsNonZero(fs: seq<Field>, key: string)
    ensures NoZeroRating(fs) ==> RatingOf(Lookup(fs, key)) != Some(0)
  {
    if NoZeroRating(fs) && |fs| > 0 && fs[|fs| - 1].name != key {
      var init := fs[..|fs| - 1];
      assert forall i :: 0 <= i < |init| ==> init[i] == fs[i];
      LookupKeepsNonZero(init, key);
    }
  }

  /** The record one data line yields: no rating read from a CSV file is 0, since "0" is read as no rating. */
  function ParseRow(headers: seq<string>, line: string): (r: Record)
    ensures r.tasteRating != Some(0) && r.deliverySpeedRating != Some(0)
            && r.environmentRating != Some(0) && r.serviceRating != Some(0)
  {
    var fs := Fields(headers, Split(line, ','));
    assert NoZeroRating(fs);
    ToRecord(fs)
  }

  /** `!line.trim()`: the line is empty or whitespace only. */
  predicate IsBlank(line: string)
  {
    Trim(line) == ""
  }

  /** `lines.map(...).filter(order => order !== null)`: blank lines map to null and are dropped. */
  function MapNonBlank<T>(f: string -> T, lines: seq<string>): (rs: seq<T>)
    ensures |rs| <= |lines|
  {
    if |lines| == 0 then []
    else (if IsBlank(lines[0]) then [] else [f(lines[0])]) + MapNonBlank(f, lines[1..])
  }

  /** The records of the data lines under the given header, in file order. */
  function ParseRows(headers: seq<string>, lines: seq<string>): seq<Record>
  {
    MapNonBlank((l: string) => ParseRow(headers, l), lines)
  }

  /** `parseCSVData`: the header line names the columns and is never emitted itself. */
  function ParseCSV(csv: string): (rs: seq<Record>)
    ensures |rs| < |Split(csv, '\n')|
  {
    var lines := Split(csv, '\n');
    ParseRows(Split(lines[0], ','), lines[1..])
  }

  /**
   One result per non-blank line, in order: the result is exactly `f` applied to
   each line that survives filtering out the blank ones.
   */
  lemma {:induction false} MapNonBlankSpec<T>(f: string -> T, lines: seq<string>)
    ensures MapNonBlank(f, lines) == Map(f, Filter((l: string) => !IsBlank(l), lines))
  {
    if |lines| > 0 {
      MapNonBlankSpec(f, lines[1..]);
    }
  }

  /** One record per non-blank data line, in file order. */
  lemma ParseRowsNonBlank(headers: seq<string>, lines: seq<string>)
    ensures ParseRows(headers, lines) ==
            Map((l: string) => ParseRow(headers, l), Filter((l: string) => !IsBlank(l), lines))
  {
    MapNonBlankSpec((l: string) => ParseRow(headers, l), lines);
  }

  /** The number of records is the number of non-blank data lines. */
  lemma ParseRowsCount(headers: seq<string>, lines: seq<string>)
    ensures |ParseRows(headers, lines)| == Count((l: string) => !IsBlank(l), lines)
  {
    ParseRowsNonBlank(headers, lines);
    FilterLength((l: string) => !IsBlank(l), lines);
  }

  /** Whitespace-only lines never produce a record. */
  lemma {:induction false} BlankLinesIgnored<T>(f: string -> T, lines: seq<string>)
    requires forall i :: 0 <= i < |lines| ==> AllWhitespace(lines[i])
    ensures MapNonBlank(f, lines) == []
  {
    if |lines| > 0 {
      TrimEmptyIffBlank(lines[0]);
      BlankLinesIgnored(f, lines[1..]);
    }
  }

  /** Mapping the lines of two consecutive parts of a file gives the results of each part in turn. */
  lemma {:induction false} MapNonBlankAppend<T>(f: string -> T, a: seq<string>, b: seq<string>)
    ensures MapNonBlank(f, a + b) == MapNonBlank(f, a) + MapNonBlank(f, b)
  {
    if |a| == 0 {
      assert a + b == b;
    } else {
      var h := if IsBlank(a[0]) then [] else [f(a[0])];
      assert a + b == [a[0]] + (a[1..] + b);
      MapNonBlankCons(f, a[0], a[1..] + b);
      MapNonBlankAppend(f, a[1..], b);
      assert h + (MapNonBlank(f, a[1..]) + MapNonBlank(f, b)) == (h + MapNonBlank(f, a[1..])) + MapNonBlank(f, b);
    }
  }

  lemma MapNonBlankCons<T>(f: string -> T, line: string, rest: seq<string>)
    ensures MapNonBlank(f, [line] + rest) == (if IsBlank(line) then [] else [f(line)]) + MapNonBlank(f, rest)
  {
    assert ([line] + rest)[1..] == rest;
  }

  /**
   A file assembled from a header line and data lines (none containing a newline)
   parses to the records of those data lines under the header's columns.
   */
  lemma ParseDocument(header: string, rows: seq<string>)
    requires '\n' !in header
    requires forall i :: 0 <= i < |rows| ==> '\n' !in rows[i]
    ensures ParseCSV(Join([header] + rows, '\n')) == ParseRows(Split(header, ','), rows)
  {
    var parts := [header] + rows;
    SplitJoin(parts, '\n');
    assert parts[1..] == rows;
  }

  /** A file of one line (no newline at all) is only a header and yields no record. */
  lemma HeaderOnly(csv: string)
    requires '\n' !in csv
    ensures ParseCSV(csv) == []
  {
    SplitNoSeparator(csv, '\n');
  }

  /** A name without some character of "rating" cannot contain "rating". */
  lemma NotRatingColumn(header: string, c: char)
    requires c in "rating" && c !in header
    ensures !IsRatingColumn(header)
  {
  }

  /** A name that has "rating" at position `i` is a rating column. */
  lemma RatingColumnAt(header: string, i: int)
    requires OccursAt(header, "rating", i)
    ensures IsRatingColumn(header)
  {
  }

  /**
   The value a column ends up with: the coerced, trimmed cell under the last
   header with that name. Cells beyond the header row are ignored.
   */
  lemma ColumnValue(headers: seq<string>, line: string, j: nat)
    requires j < |headers|
    requires forall k :: j < k < |headers| ==> headers[k] != headers[j]
    ensures Lookup(Fields(headers, Split(line, ',')), headers[j]) ==
            Some(Coerce(headers[j], CellText(Split(line, ','), j)))
  {
    var fs := Fields(headers, Split(line, ','));
    LookupSpec(fs, headers[j]);
    var c := Lookup(fs, headers[j]);
    var i :| 0 <= i < |fs| && fs[i] == Field(headers[j], c.value) &&
             forall k :: i < k < |fs| ==> fs[k].name != headers[j];
    assert i == j;
  }

  /** A column the header does not name is absent from every record. */
  lemma AbsentColumn(headers: seq<string>, line: string, key: string)
    requires key !in headers
    ensures Lookup(Fields(headers, Split(line, ',')), key) == None
  {
    LookupSpec(Fields(headers, Split(line, ',')), key);
  }

  /** The item name of a record is the trimmed text under the "item_name" header. */
  lemma ItemNameColumn(headers: seq<string>, line: string, j: nat)
    requires j < |headers| && headers[j] == "item_name"
    requires forall k :: j < k < |headers| ==> headers[k] != "item_name"
    ensures ParseRow(headers, line).itemName == Some(CellText(Split(line, ','), j))
  {
    var v := CellText(Split(line, ','), j);
    ColumnValue(headers, line, j);
    assert Coerce("item_name", v) == TextCell(v) by {
      NotRatingColumn("item_name", 'g');
    }
  }

  /** The order type of a record is the trimmed text under the "order_type" header. */
  lemma OrderTypeColumn(headers: seq<string>, line: string, j: nat)
    requires j < |headers| && headers[j] == "order_type"
    requires forall k :: j < k < |headers| ==> headers[k] != "order_type"
    ensures ParseRow(headers, line).orderType == Some(CellText(Split(line, ','), j))
  {
    var v := CellText(Split(line, ','), j);
    ColumnValue(headers, line, j);
    assert Coerce("order_type", v) == TextCell(v) by {
      NotRatingColumn("order_type", 'g');
    }
  }

  /** The amount of a record is read from the "transaction_amount" cell, and an empty cell is 0. */
  lemma AmountColumn(headers: seq<string>, line: string, j: nat)
    requires j < |headers| && headers[j] == "transaction_amount"
    requires forall k :: j < k < |headers| ==> headers[k] != "transaction_amount"
    ensures ParseRow(headers, line).transactionAmount == AmountValue(CellText(Split(line, ','), j))
    ensures CellText(Split(line, ','), j) == "" ==> ParseRow(headers, line).transactionAmount == Some(0.0)
  {
    ColumnValue(headers, line, j);
  }

  /** The order id of a record is read from the "order_id" cell by `parseInt`. */
  lemma OrderIdColumn(headers: seq<string>, line: string, j: nat)
    requires j < |headers| && headers[j] == "order_id"
    requires forall k :: j < k < |headers| ==> headers[k] != "order_id"
    ensures ParseRow(headers, line).orderId == ParseInt(CellText(Split(line, ','), j))
  {
    ColumnValue(headers, line, j);
  }

  /** The taste rating of a record is read from the "taste_rating" cell; "0" and "" give none. */
  lemma TasteRatingColumn(headers: seq<string>, line: string, j: nat)
    requires j < |headers| && headers[j] == "taste_rating"
    requires forall k :: j < k < |headers| ==> headers[k] != "taste_rating"
    ensures ParseRow(headers, line).tasteRating == RatingValue(CellText(Split(line, ','), j))
  {
    var v := CellText(Split(line, ','), j);
    ColumnValue(headers, line, j);
    assert Coerce("taste_rating", v) == RatingCell(RatingValue(v)) by {
      RatingColumnAt("taste_rating", 6);
    }
  }

  /** The delivery speed rating of a record is read from the "delivery_speed_rating" cell; "0" and "" give none. */
  lemma DeliverySpeedRatingColumn(headers: seq<string>, line: string, j: nat)
    requires j < |headers| && headers[j] == "delivery_speed_rating"
    requires forall k :: j < k < |headers| ==> headers[k] != "delivery_speed_rating"
    ensures ParseRow(headers, line).deliverySpeedRating == RatingValue(CellText(Split(line, ','), j))
  {
    var v := CellText(Split(line, ','), j);
    ColumnValue(headers, line, j);
    assert Coerce("delivery_speed_rating", v) == RatingCell(RatingValue(v)) by {
      RatingColumnAt("delivery_speed_rating", 15);
    }
  }

  /** The environment rating of a record is read from the "environment_rating" cell; "0" and "" give none. */
  lemma EnvironmentRatingColumn(headers: seq<string>, line: string, j: nat)
    requires j < |headers| && headers[j] == "environment_rating"
    requires forall k :: j < k < |headers| ==> headers[k] != "environment_rating"
    ensures ParseRow(headers, line).environmentRating == RatingValue(CellText(Split(line, ','), j))
  {
    var v := CellText(Split(line, ','), j);
    ColumnValue(headers, line, j);
    assert Coerce("environment_rating", v) == RatingCell(RatingValue(v)) by {
      RatingColumnAt("environment_rating", 12);
    }
  }

  /** The service rating of a record is read from the "service_rating" cell; "0" and "" give none. */
  lemma ServiceRatingColumn(headers: seq<string>, line: string, j: nat)
    requires j < |headers| && headers[j] == "service_rating"
    requires forall k :: j < k < |headers| ==> headers[k] != "service_rating"
    ensures ParseRow(headers, line).serviceRating == RatingValue(CellText(Split(line, ','), j))
  {
    var v := CellText(Split(line, ','), j);
    ColumnValue(headers, line, j);
    assert Coerce("service_rating", v) == RatingCell(RatingValue(v)) by {
      RatingColumnAt("service_rating", 8);
    }
  }
}
