/** The result table's non-visual logic: the tab-separated export of all
    rows and the choice of one status badge per row. */
module ResultsDisplay {
  import opened JsRuntime
  import opened Types

  const HeaderLine := "檔案名稱\t序號\t密碼"
  const Header := HeaderLine + "\n"

  /** One exported line: file name, serial number and password, tab-separated. */
  function TsvRow(item: GiftCardData): string {
    item.fileName + "\t" + item.serialNumber + "\t" + item.password
  }

  function TsvRows(data: seq<GiftCardData>): (rows: seq<string>)
    ensures |rows| == |data|
    ensures forall i :: 0 <= i < |data| ==> rows[i] == TsvRow(data[i])
  {
    seq(|data|, i requires 0 <= i < |data| => TsvRow(data[i]))
  }

  /** `header + rows.join('\n')`: no trailing newline after the last row. */
  function Tsv(data: seq<GiftCardData>): string {
    Header + Join(TsvRows(data), '\n')
  }

  /** The text the "copy all" button writes. The component renders nothing
      for an empty table, so there is no button and no text then. */
  function CopyAllText(data: seq<GiftCardData>): (text: Option<string>)
    ensures text.Some? <==> |data| > 0
    ensures text.Some? ==> StartsWith(text.value, Header)
  {
    if |data| == 0 then None else Some(Tsv(data))
  }

  /** No field can break the line and column structure of the export. */
  predicate ExportSafe(item: GiftCardData) {
    '\t' !in item.fileName && '\t' !in item.serialNumber && '\t' !in item.password &&
    '\n' !in item.fileName && '\n' !in item.serialNumber && '\n' !in item.password
  }

  lemma HeaderLineHasNoNewline()
    ensures '\n' !in HeaderLine
  {
    assert HeaderLine == ['檔', '案', '名', '稱', '\t', '序', '號', '\t', '密', '碼'];
  }

  /** A safe row splits on tabs into exactly its three fields. */
  lemma TsvRowRoundTrip(item: GiftCardData)
    requires ExportSafe(item)
    ensures '\n' !in TsvRow(item)
    ensures Split(TsvRow(item), '\t') == [item.fileName, item.serialNumber, item.password]
  {
    var parts := [item.fileName, item.serialNumber, item.password];
    assert parts[1..][1..] == [item.password];
    assert Join(parts[1..], '\t') == item.serialNumber + "\t" + item.password;
    assert Join(parts, '\t') == TsvRow(item);
    SplitJoin(parts, '\t');
  }

  /** The export of a non-empty table splits on newlines into the header and
      one line per row, in order, and each row line splits on tabs back into
      that row's three fields. */
  lemma TsvRoundTrip(data: seq<GiftCardData>)
    requires |data| > 0
    requires forall i :: 0 <= i < |data| ==> ExportSafe(data[i])
    ensures var lines := Split(Tsv(data), '\n');
            |lines| == 1 + |data| && lines[0] == HeaderLine &&
            forall i :: 0 <= i < |data| ==>
              Split(lines[i + 1], '\t') == [data[i].fileName, data[i].serialNumber, data[i].password]
  {
    var rows := TsvRows(data);
    forall i | 0 <= i < |data|
      ensures '\n' !in rows[i]
      ensures Split(rows[i], '\t') == [data[i].fileName, data[i].serialNumber, data[i].password]
    {
      TsvRowRoundTrip(data[i]);
    }
    SplitJoin(rows, '\n');
    HeaderLineHasNoNewline();
    SplitAtFirstSeparator(HeaderLine, '\n', Join(rows, '\n'));
  }

  /** The export of an empty table would end in an empty line after the header. */
  lemma TsvOfEmptyTable()
    ensures Split(Tsv([]), '\n') == [HeaderLine, ""]
  {
    HeaderLineHasNoNewline();
    SplitAtFirstSeparator(HeaderLine, '\n', "");
  }

  /** The status badges of the table; the error badge carries the message as its title. */
  datatype Badge = SuccessBadge | PendingBadge | ErrorBadge(title: Option<string>)

  /** The three `status === …  && <badge>` expressions of a row, in order;
      each contributes a badge when its test holds. */
  function Badges(item: GiftCardData): (badges: seq<Badge>)
    ensures |badges| == 1
    ensures badges[0].SuccessBadge? <==> item.status == Success
    ensures badges[0].PendingBadge? <==> item.status == Pending
    ensures badges[0].ErrorBadge? <==> item.status == Error
    ensures badges[0].ErrorBadge? ==> badges[0].title == item.errorMessage
  {
    (if item.status == Success then [SuccessBadge] else []) +
    (if item.status == Pending then [PendingBadge] else []) +
    (if item.status == Error then [ErrorBadge(item.errorMessage)] else [])
  }
}
