/** Turning a tabular query response into catalog entries: the envelope
    around the JSON payload and the per-row extraction of `fetchSheetData`. */
module Ingest {
  import Text
  import opened Wrappers
  import opened Catalog

  /** A cell's `v`, as the JSON payload carries it. Numbers are integers here. */
  datatype CellValue = Str(s: string) | Num(n: int) | Bool(b: bool)

  /** A row of `table.rows`: its positional cells `c`. `None` stands for a
      `null` cell or a cell whose `v` is `null`. */
  datatype Row = Row(c: seq<Option<CellValue>>)

  /** JavaScript truthiness of a cell value. */
  predicate Truthy(v: CellValue) {
    match v
    case Str(s) => s != ""
    case Num(n) => n != 0
    case Bool(b) => b
  }

  function DigitChar(d: nat): (c: char)
    requires d < 10
    ensures '0' <= c <= '9' && c as int - '0' as int == d
  {
    ('0' as int + d) as char
  }

  /** The number a string of decimal digits denotes. */
  function DigitsValue(s: string): nat
    requires forall i :: 0 <= i < |s| ==> '0' <= s[i] <= '9'
  {
    if s == [] then 0 else 10 * DigitsValue(s[..|s| - 1]) + (s[|s| - 1] as int - '0' as int)
  }

  /** Decimal notation of a natural number: digits denoting `n`, without a
      leading zero. */
  function NatText(n: nat): (r: string)
    ensures |r| > 0
    ensures forall i :: 0 <= i < |r| ==> '0' <= r[i] <= '9'
    ensures DigitsValue(r) == n
    ensures |r| > 1 ==> r[0] != '0'
  {
    if n < 10 then [DigitChar(n)]
    else
      var prefix := NatText(n / 10);
      var r := prefix + [DigitChar(n % 10)];
      assert r[..|r| - 1] == prefix;
      r
  }

  /** `String(v)`. */
  function ValueText(v: CellValue): (r: string)
    ensures Truthy(v) ==> r != ""
  {
    match v
    case Str(s) => s
    case Num(n) => if n < 0 then "-" + NatText(-n) else NatText(n)
    case Bool(b) => if b then "true" else "false"
  }

  /** `cell && cell.v ? String(cell.v) : ''` for `row.c[k]`; an index past the
      end of `c` reads `undefined`. */
  function CellText(row: Row, k: nat): (r: string)
    ensures r != "" <==> k < |row.c| && row.c[k].Some? && Truthy(row.c[k].value)
  {
    if k < |row.c| && row.c[k].Some? && Truthy(row.c[k].value) then ValueText(row.c[k].value) else ""
  }

  /** The entry a row contributes: the first cell is tested for emptiness
      before both texts are trimmed. */
  function EntryOf(row: Row): Option<Entry> {
    var title := CellText(row, 0);
    var info := CellText(row, 1);
    if title != "" then Some(Entry(Text.Trim(title), Text.Trim(info))) else None
  }

  /** A row yields an entry exactly when its first cell holds a truthy value;
      a missing or falsy second cell gives an empty `info`. */
  lemma EntryOfKeepsTitledRows(row: Row)
    ensures EntryOf(row).Some? <==> |row.c| > 0 && row.c[0].Some? && Truthy(row.c[0].value)
    ensures EntryOf(row).Some? && !(|row.c| > 1 && row.c[1].Some? && Truthy(row.c[1].value)) ==>
      EntryOf(row).value.info == ""
  {
    var title, info := CellText(row, 0), CellText(row, 1);
    assert EntryOf(row) == if title != "" then Some(Entry(Text.Trim(title), Text.Trim(info))) else None;
    if EntryOf(row).Some? && !(|row.c| > 1 && row.c[1].Some? && Truthy(row.c[1].value)) {
      assert info == "";
      Text.TrimEmptyIff(info);
    }
  }

  /** A title made only of white space passes the emptiness test and comes
      out as an empty title. */
  lemma BlankTitleKeptEmpty(row: Row)
    requires |row.c| > 0 && row.c[0].Some? && row.c[0].value.Str?
    requires var s := row.c[0].value.s; s != "" && forall i :: 0 <= i < |s| ==> Text.IsSpace(s[i])
    ensures EntryOf(row).Some? && EntryOf(row).value.title == ""
  {
    Text.TrimEmptyIff(row.c[0].value.s);
  }

  /** What the loop body computes for each row, in row order. */
  function Candidates(rows: seq<Row>): (r: seq<Option<Entry>>)
    ensures |r| == |rows|
    ensures forall i :: 0 <= i < |rows| ==> r[i] == EntryOf(rows[i])
  {
    seq(|rows|, i requires 0 <= i < |rows| => EntryOf(rows[i]))
  }

  /** The entries extracted from `rows`. */
  function Extract(rows: seq<Row>): seq<Entry> {
    Somes(Candidates(rows))
  }

  /** Extraction keeps the row order, never yields more entries than rows, and
      keeps exactly the rows that yield an entry. */
  lemma ExtractProperties(rows: seq<Row>)
    ensures |Extract(rows)| <= |rows|
    ensures forall e :: e in Extract(rows) <==> exists i :: 0 <= i < |rows| && EntryOf(rows[i]) == Some(e)
    ensures forall j, k :: 0 <= j < k < |Extract(rows)| ==>
      exists p, q :: 0 <= p < q < |rows| && EntryOf(rows[p]) == Some(Extract(rows)[j]) && EntryOf(rows[q]) == Some(Extract(rows)[k])
  {
    var c := Candidates(rows);
    forall e ensures e in Extract(rows) <==> exists i :: 0 <= i < |rows| && EntryOf(rows[i]) == Some(e) {
      if e in Extract(rows) {
        var k :| 0 <= k < |Extract(rows)| && Extract(rows)[k] == e;
        assert Some(e) in c;
      }
      if exists i :: 0 <= i < |rows| && EntryOf(rows[i]) == Some(e) {
        var i :| 0 <= i < |rows| && EntryOf(rows[i]) == Some(e);
        SomesComplete(c, i);
      }
    }
    forall j, k | 0 <= j < k < |Extract(rows)|
      ensures exists p, q :: 0 <= p < q < |rows| && EntryOf(rows[p]) == Some(Extract(rows)[j]) && EntryOf(rows[q]) == Some(Extract(rows)[k])
    {
      SomesInOrder(c, j, k);
    }
  }

  /** The text `google.visualization.Query.setResponse`, whose presence the
      source checks before parsing. */
  const Marker := "google.visualization.Query.setResponse"

  /** The fixed head and tail around the JSON object in a response of the
      Google Chart Tools Datasource protocol with `tqx=out:json`. */
  const EnvelopeHead := "/*O_o*/\n" + Marker + "("
  const EnvelopeTail := ");"

  /** `text.substring(47).slice(0, -2)`: drop 47 characters in front (none
      left if the text is shorter) and 2 at the end (down to empty). */
  function StripEnvelope(text: string): string {
    var rest := if |text| >= 47 then text[47..] else "";
    rest[..if |rest| >= 2 then |rest| - 2 else 0]
  }

  /** The fixed offsets of the strip are those of the protocol's envelope:
      stripping a wrapped payload gives the payload back, and a wrapped
      payload passes the marker test. */
  lemma EnvelopeRoundTrip(payload: string)
    ensures StripEnvelope(EnvelopeHead + payload + EnvelopeTail) == payload
    ensures Text.Contains(EnvelopeHead + payload + EnvelopeTail, Marker)
  {
    var text := EnvelopeHead + payload + EnvelopeTail;
    assert |EnvelopeHead| == 47;
    assert text[47..] == payload + EnvelopeTail;
    assert text[8..8 + |Marker|] == Marker;
    assert Text.OccursAt(text, Marker, 8);
  }

  /** The table a remote strategy yields: nothing when the request failed, the
      body lacks the marker or `parse` (standing for `JSON.parse` and the
      `.table.rows` access) rejects the stripped body. */
  function Parsed(response: Option<string>, parse: string -> Option<seq<Row>>): Option<seq<Row>> {
    if response.None? || !Text.Contains(response.value, Marker) then None
    else parse(StripEnvelope(response.value))
  }
}
