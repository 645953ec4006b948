/**
 The two CSV writers, against a reader that accepts the format of RFC 4180 section 2 with LF row ends.
 */
module Csv {
  import opened Options

  // ----- What is written

  const SPECIAL := {',', '"', '\n', '\r'}

  predicate NeedsQuotes(cell: string) {
    exists i :: 0 <= i < |cell| && cell[i] in SPECIAL
  }

  function EscapedChar(c: char): string {
    if c == '"' then "\"\"" else [c]
  }

  /** Every quote doubled. */
  function Escape(cell: string): string {
    if |cell| == 0 then "" else Escape(cell[..|cell| - 1]) + EscapedChar(cell[|cell| - 1])
  }

  function CellText(cell: string): string {
    if NeedsQuotes(cell) then "\"" + Escape(cell) + "\"" else cell
  }

  /** The first `n` cells, with separators between them. */
  function CellsText(cells: seq<string>, n: nat): string
    requires n <= |cells|
  {
    if n == 0 then "" else CellsText(cells, n - 1) + (if n > 1 then "," else "") + CellText(cells[n - 1])
  }

  function RowText(cells: seq<string>): string {
    CellsText(cells, |cells|) + "\n"
  }

  function TableText(rows: seq<seq<string>>): string {
    if |rows| == 0 then "" else RowText(rows[0]) + TableText(rows[1..])
  }

  // ----- The text writer

  lemma Associate<T>(a: seq<T>, b: seq<T>, c: seq<T>)
    ensures a + b + c == a + (b + c)
  {
  }

  lemma EscapeSnoc(cell: string, c: char)
    ensures Escape(cell + [c]) == Escape(cell) + EscapedChar(c)
  {
    assert (cell + [c])[..|cell|] == cell;
  }

  lemma OneMore(cell: string, i: nat)
    requires i < |cell|
    ensures cell[..i + 1] == cell[..i] + [cell[i]]
  {
  }

  lemma AppendEscaped(written: string, cell: string, i: nat)
    requires i < |cell|
    ensures written + Escape(cell[..i + 1]) == written + Escape(cell[..i]) + EscapedChar(cell[i])
  {
    OneMore(cell, i);
    EscapeSnoc(cell[..i], cell[i]);
    Associate(written, Escape(cell[..i]), EscapedChar(cell[i]));
  }

  lemma Enclosed<T>(out: seq<T>, a: seq<T>, body: seq<T>, b: seq<T>)
    ensures out + a + body + b == out + (a + body + b)
  {
  }

  method WriteCsvCell(out0: string, cell: string) returns (out: string)
    ensures out == out0 + CellText(cell)
  {
    out := out0;
    if NeedsQuotes(cell) {
      out := out + "\"";
      ghost var begun := out;
      for i := 0 to |cell|
        invariant out == begun + Escape(cell[..i])
      {
        AppendEscaped(begun, cell, i);
        if cell[i] == '"' {
          out := out + "\"\"";
        } else {
          out := out + [cell[i]];
        }
      }
      assert cell[..|cell|] == cell;
      out := out + "\"";
      Enclosed(out0, "\"", Escape(cell), "\"");
    } else {
      out := out + cell;
    }
  }

  method WriteCsvRow(out0: string, cells: seq<string>) returns (out: string)
    ensures out == out0 + RowText(cells)
  {
    out := out0;
    for i := 0 to |cells|
      invariant out == out0 + CellsText(cells, i)
    {
      if i > 0 {
        out := out + ",";
      }
      out := WriteCsvCell(out, cells[i]);
    }
    out := out + "\n";
  }

  datatype Json = Null | Text(text: string) | Other(rendered: string)

  function JsonCell(v: Json): string {
    match v
    case Null => ""
    case Text(text) => text
    case Other(rendered) => rendered
  }

  function RowCells(schema: seq<string>, row: map<string, Json>): seq<string> {
    seq(|schema|, i requires 0 <= i < |schema| => if schema[i] in row then JsonCell(row[schema[i]]) else "")
  }

  function TableRows(schema: seq<string>, rows: seq<map<string, Json>>): seq<seq<string>> {
    [schema] + seq(|rows|, r requires 0 <= r < |rows| => RowCells(schema, rows[r]))
  }

  /** The header is the schema, and each row has a cell for each column: its text where it holds text, its
      rendering where it holds another value, and nothing where the column is missing or null. */
  lemma CellOfColumn(schema: seq<string>, rows: seq<map<string, Json>>, r: nat, i: nat)
    requires r < |rows| && i < |schema|
    ensures var table, row, column := TableRows(schema, rows), rows[r], schema[i];
            && |table| == |rows| + 1 && table[0] == schema && |table[r + 1]| == |schema|
            && (column !in row || row[column] == Null ==> table[r + 1][i] == "")
            && (forall text :: column in row && row[column] == Text(text) ==> table[r + 1][i] == text)
            && (forall text :: column in row && row[column] == Other(text) ==> table[r + 1][i] == text)
  {
  }

  lemma {:induction false} EscapeLonger(cell: string)
    ensures |Escape(cell)| >= |cell|
    decreases |cell|
  {
    if |cell| > 0 { EscapeLonger(cell[..|cell| - 1]); }
  }

  /** A cell is written as it is exactly when it has no comma, quote, line feed or carriage return; otherwise
      it is written between quotes. */
  lemma QuotedExactlyWhen(cell: string)
    ensures CellText(cell) == cell <==> ',' !in cell && '"' !in cell && '\n' !in cell && '\r' !in cell
    ensures CellText(cell) != cell ==>
              |CellText(cell)| > 1 && CellText(cell)[0] == '"' && CellText(cell)[|CellText(cell)| - 1] == '"'
  {
    if NeedsQuotes(cell) { EscapeLonger(cell); }
    forall c | c in SPECIAL && c in cell
      ensures NeedsQuotes(cell)
    {
      var i :| 0 <= i < |cell| && cell[i] == c;
    }
  }

  lemma TableTextCons(first: seq<string>, rows: seq<seq<string>>)
    ensures TableText([first] + rows) == RowText(first) + TableText(rows)
  {
    assert ([first] + rows)[1..] == rows;
  }

  lemma {:induction false} TableTextSnoc(rows: seq<seq<string>>, row: seq<string>)
    ensures TableText(rows + [row]) == TableText(rows) + RowText(row)
    decreases |rows|
  {
    if |rows| == 0 {
      TableTextCons(row, []);
      assert rows + [row] == [row] + [] && TableText([]) == "";
    } else {
      TableTextSnoc(rows[1..], row);
      TableTextCons(rows[0], rows[1..] + [row]);
      Associate([rows[0]], rows[1..], [row]);
      assert rows == [rows[0]] + rows[1..];
      Associate(RowText(rows[0]), TableText(rows[1..]), RowText(row));
    }
  }

  lemma TableTextNext(rows: seq<seq<string>>, n: nat)
    requires n < |rows|
    ensures TableText(rows[..n + 1]) == TableText(rows[..n]) + RowText(rows[n])
  {
    TableTextSnoc(rows[..n], rows[n]);
    assert rows[..n + 1] == rows[..n] + [rows[n]];
  }

  method WriteTable(schema: seq<string>, rows: seq<map<string, Json>>) returns (out: string)
    ensures out == TableText(TableRows(schema, rows))
  {
    ghost var all := TableRows(schema, rows);
    TableTextNext(all, 0);
    out := WriteCsvRow("", schema);
    for r := 0 to |rows|
      invariant out == TableText(all[..r + 1])
    {
      TableTextNext(all, r + 1);
      var cells := RowCells(schema, rows[r]);
      out := WriteCsvRow(out, cells);
    }
    assert all[..|rows| + 1] == all;
  }

  // ----- The byte writer

  type Byte = b: int | 0 <= b < 256

  /** `encode` is UTF-8, one character at a time. */
  function Bytes(encode: char -> seq<Byte>, s: string): seq<Byte> {
    if |s| == 0 then [] else Bytes(encode, s[..|s| - 1]) + encode(s[|s| - 1])
  }

  lemma BytesSnoc(encode: char -> seq<Byte>, s: string, c: char)
    ensures Bytes(encode, s + [c]) == Bytes(encode, s) + encode(c)
  {
    assert (s + [c])[..|s|] == s;
  }

  lemma {:induction false} BytesConcat(encode: char -> seq<Byte>, a: string, b: string)
    ensures Bytes(encode, a + b) == Bytes(encode, a) + Bytes(encode, b)
    decreases |b|
  {
    if |b| == 0 {
      assert a + b == a;
    } else {
      var init, last := b[..|b| - 1], b[|b| - 1];
      BytesConcat(encode, a, init);
      BytesSnoc(encode, a + init, last);
      BytesSnoc(encode, init, last);
      assert b == init + [last];
      Associate(a, init, [last]);
      Associate(Bytes(encode, a), Bytes(encode, init), encode(last));
    }
  }

  predicate IsAscii(encode: char -> seq<Byte>) {
    encode(',') == [44] && encode('"') == [34] && encode('\n') == [10]
  }

  lemma BytesOfOne(encode: char -> seq<Byte>, c: char)
    ensures Bytes(encode, [c]) == encode(c)
  {
    assert [c][..0] == "";
  }

  lemma TwoQuotes(encode: char -> seq<Byte>)
    requires IsAscii(encode)
    ensures Bytes(encode, "\"\"") == [34, 34]
  {
    assert "\"\"" == "\"" + "\"";
    BytesConcat(encode, "\"", "\"");
    BytesOfOne(encode, '"');
  }

  lemma EscapedCharBytes(encode: char -> seq<Byte>, c: char)
    requires IsAscii(encode)
    ensures Bytes(encode, EscapedChar(c)) == if c == '"' then [34, 34] else encode(c)
  {
    if c == '"' { TwoQuotes(encode); } else { BytesOfOne(encode, c); }
  }

  /** One more character of the cell, escaped. */
  lemma AppendEscapedBytes(encode: char -> seq<Byte>, written: seq<Byte>, cell: string, i: nat)
    requires IsAscii(encode) && i < |cell|
    ensures written + Bytes(encode, Escape(cell[..i + 1])) == written + Bytes(encode, Escape(cell[..i])) +
            if cell[i] == '"' then [34, 34] else encode(cell[i])
  {
    OneMore(cell, i);
    EscapeSnoc(cell[..i], cell[i]);
    BytesConcat(encode, Escape(cell[..i]), EscapedChar(cell[i]));
    EscapedCharBytes(encode, cell[i]);
    Associate(written, Bytes(encode, Escape(cell[..i])), Bytes(encode, EscapedChar(cell[i])));
  }

  lemma QuotedBytes(encode: char -> seq<Byte>, body: string)
    requires IsAscii(encode)
    ensures Bytes(encode, "\"" + body + "\"") == [34] + Bytes(encode, body) + [34]
  {
    BytesConcat(encode, "\"", body);
    BytesConcat(encode, "\"" + body, "\"");
    BytesOfOne(encode, '"');
  }

  method WriteCsvCellBytes(encode: char -> seq<Byte>, out0: seq<Byte>, cell: string) returns (out: seq<Byte>)
    requires IsAscii(encode)
    ensures out == out0 + Bytes(encode, CellText(cell))
  {
    out := out0;
    if NeedsQuotes(cell) {
      out := out + [34];
      ghost var begun := out;
      for i := 0 to |cell|
        invariant out == begun + Bytes(encode, Escape(cell[..i]))
      {
        AppendEscapedBytes(encode, begun, cell, i);
        if cell[i] == '"' {
          out := out + [34, 34];
        } else {
          out := out + encode(cell[i]);
        }
      }
      assert cell[..|cell|] == cell;
      out := out + [34];
      QuotedBytes(encode, Escape(cell));
      Enclosed(out0, [34], Bytes(encode, Escape(cell)), [34]);
    } else {
      out := out + Bytes(encode, cell);
    }
  }

  lemma CellBytes(encode: char -> seq<Byte>, cells: seq<string>, i: nat)
    requires IsAscii(encode) && i < |cells|
    ensures Bytes(encode, CellsText(cells, i + 1)) ==
            Bytes(encode, CellsText(cells, i)) + (if i > 0 then [44] else []) + Bytes(encode, CellText(cells[i]))
  {
    var sep := if i > 0 then "," else "";
    BytesOfOne(encode, ',');
    BytesConcat(encode, CellsText(cells, i), sep);
    BytesConcat(encode, CellsText(cells, i) + sep, CellText(cells[i]));
  }

  lemma AppendCellBytes(encode: char -> seq<Byte>, written: seq<Byte>, cells: seq<string>, i: nat)
    requires IsAscii(encode) && i < |cells|
    ensures written + Bytes(encode, CellsText(cells, i + 1)) ==
            (if i > 0 then written + Bytes(encode, CellsText(cells, i)) + [44]
             else written + Bytes(encode, CellsText(cells, i))) + Bytes(encode, CellText(cells[i]))
  {
    CellBytes(encode, cells, i);
    var sep: seq<Byte> := if i > 0 then [44] else [];
    Enclosed(written, Bytes(encode, CellsText(cells, i)), sep, Bytes(encode, CellText(cells[i])));
  }

  lemma RowEndBytes(encode: char -> seq<Byte>, written: seq<Byte>, cells: seq<string>)
    requires IsAscii(encode)
    ensures written + Bytes(encode, RowText(cells)) == written + Bytes(encode, CellsText(cells, |cells|)) + [10]
  {
    BytesConcat(encode, CellsText(cells, |cells|), "\n");
    BytesOfOne(encode, '\n');
    Associate(written, Bytes(encode, CellsText(cells, |cells|)), [10]);
  }

  /** The byte writer emits the UTF-8 of what the text writer emits. */
  method WriteCsvRowBytes(encode: char -> seq<Byte>, out0: seq<Byte>, cells: seq<string>) returns (out: seq<Byte>)
    requires IsAscii(encode)
    ensures out == out0 + Bytes(encode, RowText(cells))
  {
    out := out0;
    for i := 0 to |cells|
      invariant out == out0 + Bytes(encode, CellsText(cells, i))
    {
      AppendCellBytes(encode, out0, cells, i);
      if i > 0 {
        out := out + [44];
      }
      out := WriteCsvCellBytes(encode, out, cells[i]);
    }
    RowEndBytes(encode, out0, cells);
    out := out + [10];
  }

  // ----- A reader

  datatype Mode = FieldStart | Plain | Quoted | QuoteSeen

  /** Reads `s` on, with `field`, `row` and `rows` read so far. A quote may open a field but not stand in
      an unquoted one; inside quotes only a doubled quote stands for a quote; a field ends at a comma or
      at the end of its row; and the text ends with the end of a row. */
  function ParseFrom(s: string, mode: Mode, field: string, row: seq<string>,
                     rows: seq<seq<string>>): Option<seq<seq<string>>>
  {
    if |s| == 0 then
      if mode == FieldStart && |row| == 0 then Some(rows) else None
    else
      var c, rest := s[0], s[1..];
      if mode == Quoted then
        if c == '"' then ParseFrom(rest, QuoteSeen, field, row, rows)
          else ParseFrom(rest, Quoted, field + [c], row, rows)
      else if c == ',' then ParseFrom(rest, FieldStart, "", row + [field], rows)
      else if c == '\n' then ParseFrom(rest, FieldStart, "", [], rows + [row + [field]])
      else if c == '"' then
        match mode
        case FieldStart => ParseFrom(rest, Quoted, "", row, rows)
        case QuoteSeen => ParseFrom(rest, Quoted, field + [c], row, rows)
        case _ => None
      else if c == '\r' || mode == QuoteSeen then None
      else ParseFrom(rest, Plain, field + [c], row, rows)
  }

  function Parse(s: string): Option<seq<seq<string>>> {
    ParseFrom(s, FieldStart, "", [], [])
  }

  /** After a field and its separator. */
  function AfterField(rest: string, sep: char, cell: string, row: seq<string>,
                      rows: seq<seq<string>>): Option<seq<seq<string>>>
  {
    if sep == ',' then ParseFrom(rest, FieldStart, "", row + [cell], rows)
    else ParseFrom(rest, FieldStart, "", [], rows + [row + [cell]])
  }

  lemma {:induction false} PlainCell(cell: string, sep: char, rest: string, mode: Mode, field: string,
                                     row: seq<string>, rows: seq<seq<string>>)
    requires !NeedsQuotes(cell) && sep in {',', '\n'}
    requires mode == Plain || (mode == FieldStart && field == "")
    ensures ParseFrom(cell + [sep] + rest, mode, field, row, rows) == AfterField(rest, sep, field + cell, row, rows)
    decreases |cell|
  {
    var s := cell + [sep] + rest;
    if |cell| == 0 {
      assert s[0] == sep && s[1..] == rest && field + cell == field;
    } else {
      assert cell[0] !in SPECIAL;
      assert !NeedsQuotes(cell[1..]);
      assert s[0] == cell[0] && s[1..] == cell[1..] + [sep] + rest;
      PlainCell(cell[1..], sep, rest, Plain, field + [cell[0]], row, rows);
      assert field + [cell[0]] + cell[1..] == field + cell;
    }
  }

  lemma {:induction false} EscapeCons(c: char, cell: string)
    ensures Escape([c] + cell) == EscapedChar(c) + Escape(cell)
    decreases |cell|
  {
    if |cell| == 0 {
      assert [c] + cell == "" + [c];
      EscapeSnoc("", c);
    } else {
      var init, last := cell[..|cell| - 1], cell[|cell| - 1];
      EscapeCons(c, init);
      EscapeSnoc([c] + init, last);
      EscapeSnoc(init, last);
      assert cell == init + [last];
      Associate([c], init, [last]);
      Associate(EscapedChar(c), Escape(init), EscapedChar(last));
    }
  }

  lemma DoubledQuote(rest: string, field: string, row: seq<string>, rows: seq<seq<string>>)
    ensures ParseFrom("\"\"" + rest, Quoted, field, row, rows) == ParseFrom(rest, Quoted, field + ['"'], row, rows)
  {
    var s := "\"\"" + rest;
    assert s[1..] == ['"'] + rest && s[1..][1..] == rest;
  }

  lemma OtherChar(c: char, rest: string, field: string, row: seq<string>, rows: seq<seq<string>>)
    requires c != '"'
    ensures ParseFrom([c] + rest, Quoted, field, row, rows) == ParseFrom(rest, Quoted, field + [c], row, rows)
  {
    assert ([c] + rest)[1..] == rest;
  }

  lemma CloseQuote(sep: char, rest: string, field: string, row: seq<string>, rows: seq<seq<string>>)
    requires sep in {',', '\n'}
    ensures ParseFrom("\"" + [sep] + rest, Quoted, field, row, rows) == AfterField(rest, sep, field, row, rows)
  {
    var s := "\"" + [sep] + rest;
    assert s[1..] == [sep] + rest && s[1..][1..] == rest;
  }

  lemma {:induction false} QuotedCell(cell: string, sep: char, rest: string, field: string, row: seq<string>,
                                      rows: seq<seq<string>>)
    requires sep in {',', '\n'}
    ensures ParseFrom(Escape(cell) + "\"" + [sep] + rest, Quoted, field, row, rows) ==
            AfterField(rest, sep, field + cell, row, rows)
    decreases |cell|
  {
    if |cell| == 0 {
      assert Escape(cell) + "\"" + [sep] + rest == "\"" + [sep] + rest && field + cell == field;
      CloseQuote(sep, rest, field, row, rows);
    } else {
      var c, tail := cell[0], cell[1..];
      assert cell == [c] + tail;
      EscapeCons(c, tail);
      QuotedCell(tail, sep, rest, field + [c], row, rows);
      Associate(field, [c], tail);
      Prepended(EscapedChar(c), Escape(tail), "\"", [sep], rest);
      var later := Escape(tail) + "\"" + [sep] + rest;
      if c == '"' { DoubledQuote(later, field, row, rows); } else { OtherChar(c, later, field, row, rows); }
    }
  }

  lemma Prepended(a: string, b: string, c: string, d: string, e: string)
    ensures a + b + c + d + e == a + (b + c + d + e)
  {
  }

  lemma OpenQuote(rest: string, row: seq<string>, rows: seq<seq<string>>)
    ensures ParseFrom(['"'] + rest, FieldStart, "", row, rows) == ParseFrom(rest, Quoted, "", row, rows)
  {
    assert (['"'] + rest)[1..] == rest;
  }

  lemma AfterQuote(q: string, body: string, sep: string, rest: string)
    ensures q + body + q + sep + rest == q + (body + q + sep + rest)
  {
  }

  lemma CellParsed(cell: string, sep: char, rest: string, row: seq<string>, rows: seq<seq<string>>)
    requires sep in {',', '\n'}
    ensures ParseFrom(CellText(cell) + [sep] + rest, FieldStart, "", row, rows) ==
            AfterField(rest, sep, cell, row, rows)
  {
    if NeedsQuotes(cell) {
      QuotedCellParsed(cell, sep, rest, row, rows);
    } else {
      assert "" + cell == cell;
      PlainCell(cell, sep, rest, FieldStart, "", row, rows);
    }
  }

  lemma QuotedCellParsed(cell: string, sep: char, rest: string, row: seq<string>, rows: seq<seq<string>>)
    requires sep in {',', '\n'}
    ensures ParseFrom("\"" + Escape(cell) + "\"" + [sep] + rest, FieldStart, "", row, rows) ==
            AfterField(rest, sep, cell, row, rows)
  {
    assert "" + cell == cell;
    AfterQuote("\"", Escape(cell), [sep], rest);
    QuotedCell(cell, sep, rest, "", row, rows);
    OpenQuote(Escape(cell) + "\"" + [sep] + rest, row, rows);
  }

  /** The cells from `k` on of a row, each followed by its separator, the last by the row end. */
  function Tail(cells: seq<string>, k: nat): string
    requires k < |cells|
    decreases |cells| - k
  {
    if k == |cells| - 1 then CellText(cells[k]) + "\n" else CellText(cells[k]) + "," + Tail(cells, k + 1)
  }

  lemma {:induction false} RowIsTail(cells: seq<string>, k: nat)
    requires k < |cells|
    ensures RowText(cells) == CellsText(cells, k) + (if k > 0 then "," else "") + Tail(cells, k)
    decreases |cells| - k
  {
    var before := CellsText(cells, k) + if k > 0 then "," else "";
    if k < |cells| - 1 {
      RowIsTail(cells, k + 1);
      Regroup(before, CellText(cells[k]), ",", Tail(cells, k + 1));
    } else {
      Regroup(before, CellText(cells[k]), "\n", "");
    }
  }

  lemma Regroup(a: string, b: string, c: string, d: string)
    ensures a + b + c + d == a + (b + c + d)
    ensures b + c + "" == b + c && a + b + c + "" == a + b + c
  {
  }

  lemma {:induction false} TailParsed(cells: seq<string>, k: nat, rest: string, rows: seq<seq<string>>)
    requires k < |cells|
    ensures ParseFrom(Tail(cells, k) + rest, FieldStart, "", cells[..k], rows) ==
            ParseFrom(rest, FieldStart, "", [], rows + [cells])
    decreases |cells| - k
  {
    assert cells[..k] + [cells[k]] == cells[..k + 1];
    if k == |cells| - 1 {
      assert Tail(cells, k) + rest == CellText(cells[k]) + ['\n'] + rest;
      CellParsed(cells[k], '\n', rest, cells[..k], rows);
      assert cells[..k + 1] == cells;
    } else {
      assert Tail(cells, k) + rest == CellText(cells[k]) + [','] + (Tail(cells, k + 1) + rest);
      CellParsed(cells[k], ',', Tail(cells, k + 1) + rest, cells[..k], rows);
      TailParsed(cells, k + 1, rest, rows);
    }
  }

  /** What a row reads back as: itself, except that a row without cells reads as one empty cell. */
  function ReadRow(cells: seq<string>): seq<string> {
    if |cells| == 0 then [""] else cells
  }

  function ReadRows(rows: seq<seq<string>>): seq<seq<string>> {
    seq(|rows|, r requires 0 <= r < |rows| => ReadRow(rows[r]))
  }

  lemma RowParsed(cells: seq<string>, rest: string, rows: seq<seq<string>>)
    ensures ParseFrom(RowText(cells) + rest, FieldStart, "", [], rows) ==
            ParseFrom(rest, FieldStart, "", [], rows + [ReadRow(cells)])
  {
    if |cells| == 0 {
      var s := RowText(cells) + rest;
      assert s[0] == '\n' && s[1..] == rest && [] + [""] == [""];
    } else {
      RowIsTail(cells, 0);
      assert RowText(cells) == Tail(cells, 0) && cells[..0] == [];
      TailParsed(cells, 0, rest, rows);
    }
  }

  lemma {:induction false} TableParsed(rows: seq<seq<string>>, before: seq<seq<string>>)
    ensures ParseFrom(TableText(rows), FieldStart, "", [], before) == Some(before + ReadRows(rows))
    decreases |rows|
  {
    if |rows| == 0 {
      assert before + ReadRows(rows) == before;
    } else {
      RowParsed(rows[0], TableText(rows[1..]), before);
      TableParsed(rows[1..], before + [ReadRow(rows[0])]);
      assert before + [ReadRow(rows[0])] + ReadRows(rows[1..]) == before + ReadRows(rows);
    }
  }

  lemma ReadAsWritten(rows: seq<seq<string>>)
    ensures ReadRows(rows) == rows <==> forall r :: 0 <= r < |rows| ==> |rows[r]| > 0
  {
    if r :| 0 <= r < |rows| && |rows[r]| == 0 {
      assert ReadRows(rows)[r] == [""];
    }
  }

  /** Reading what was written gives the rows back exactly when every row has a cell. */
  lemma RoundTrip(rows: seq<seq<string>>)
    ensures Parse(TableText(rows)) == Some(rows) <==> forall r :: 0 <= r < |rows| ==> |rows[r]| > 0
  {
    TableParsed(rows, []);
    assert [] + ReadRows(rows) == ReadRows(rows);
    ReadAsWritten(rows);
  }

  /** A table with at least one column reads back as its header and its cells, whatever their text. */
  lemma TableRoundTrip(schema: seq<string>, rows: seq<map<string, Json>>)
    requires |schema| > 0
    ensures Parse(TableText(TableRows(schema, rows))) == Some(TableRows(schema, rows))
  {
    RoundTrip(TableRows(schema, rows));
  }

  /** Without columns the text does not tell a row without cells from one with an empty cell. */
  lemma NoColumnsIsAmbiguous()
    ensures var none: seq<string> := []; TableText([none]) == TableText([[""]])
  {
    var none: seq<string>, empty := [], [""];
    assert [none][1..] == [] && [empty][1..] == [];
    assert !NeedsQuotes("");
    assert RowText(none) == "\n" == RowText(empty);
  }
}
