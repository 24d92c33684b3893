/**
 * The standalone conversion script: the same normaliser as the browser,
 * writing each transaction as a nine-cell row under a fixed header row,
 * with capitalised type labels and the amount left as read.
 *
 * Reading and writing the workbook files are outside the model: `raw` is
 * the first sheet's raw rows, and the result is the sheet that would be
 * written.
 */
module Script {
  import opened Wrappers
  import opened Cells
  import opened Text
  import opened Normalizer
  import App

  const OutputHeaders: seq<string> :=
    ["Date", "Transaction ID", "Sender", "Receiver", "Category", "Amount", "Type",
     "Balance After Transaction", "Description"]

  /** The type label the script writes: capitalised. */
  function Label(k: Kind): string
  {
    match k
    case Debit => "Debit"
    case Credit => "Credit"
    case Unknown => "Unknown"
  }

  /** The nine-element array the script builds for one transaction. */
  function OutputRow(t: Txn): seq<Cell>
  {
    [t.date, Str(t.transactionId), Str(t.sender), Str(t.receiver), Str(t.category),
     t.amount, Str(Label(t.kind)), t.balance, Str(t.description)]
  }

  /** Which transaction field each output column names. */
  function Column(t: Txn, name: string): Option<Cell>
  {
    if name == "Date" then Some(t.date)
    else if name == "Transaction ID" then Some(Str(t.transactionId))
    else if name == "Sender" then Some(Str(t.sender))
    else if name == "Receiver" then Some(Str(t.receiver))
    else if name == "Category" then Some(Str(t.category))
    else if name == "Amount" then Some(t.amount)
    else if name == "Type" then Some(Str(Label(t.kind)))
    else if name == "Balance After Transaction" then Some(t.balance)
    else if name == "Description" then Some(Str(t.description))
    else None
  }

  /** Every row has nine cells, each under the header that names its field. */
  lemma RowAligned(t: Txn)
    ensures |OutputRow(t)| == |OutputHeaders| == 9
    ensures forall i :: 0 <= i < 9 ==> Column(t, OutputHeaders[i]) == Some(OutputRow(t)[i])
  {
    var r := OutputRow(t);
    assert Column(t, OutputHeaders[0]) == Some(r[0]);
    assert Column(t, OutputHeaders[1]) == Some(r[1]);
    assert Column(t, OutputHeaders[2]) == Some(r[2]);
    assert Column(t, OutputHeaders[3]) == Some(r[3]);
    assert Column(t, OutputHeaders[4]) == Some(r[4]);
    assert Column(t, OutputHeaders[5]) == Some(r[5]);
    assert Column(t, OutputHeaders[6]) == Some(r[6]);
    assert Column(t, OutputHeaders[7]) == Some(r[7]);
    assert Column(t, OutputHeaders[8]) == Some(r[8]);
  }

  function HeaderRow(): seq<Cell>
  {
    seq(|OutputHeaders|, i requires 0 <= i < |OutputHeaders| => Str(OutputHeaders[i]))
  }

  /** `[outputHeaders, ...processed]`. */
  function FinalSheet(txns: seq<Txn>): seq<seq<Cell>>
  {
    [HeaderRow()] + seq(|txns|, k requires 0 <= k < |txns| => OutputRow(txns[k]))
  }

  /** What one run of the script ends in. */
  datatype Outcome =
    | Written(sheet: seq<seq<Cell>>)   // the sheet written to the output workbook
    | Exited                           // header row missing: error message, exit status 1
    | Crashed                          // the filter threw; nothing written

  function Run(raw: seq<seq<Cell>>, ids: nat -> string): Outcome
  {
    match Normalize(raw, ids)
    case Ok(txns) => Written(FinalSheet(txns))
    case Err(HeaderNotFound) => Exited
    case Err(DescriptionNotText) => Crashed
  }

  /** The script exits without writing exactly when no row holds the three marker headers. */
  lemma ExitsExactly(raw: seq<seq<Cell>>, ids: nat -> string)
    ensures Run(raw, ids) == Exited <==> forall j :: 0 <= j < |raw| ==> !IsHeaderRow(raw[j])
  {
    NormalizeHeaderNotFound(raw, ids);
  }

  /**
   * A written sheet is the header row and then one nine-cell row per
   * transaction, in order: one row more than there are transactions.
   */
  lemma SheetShape(raw: seq<seq<Cell>>, ids: nat -> string)
    requires Run(raw, ids).Written?
    ensures Normalize(raw, ids).Ok?
    ensures var sheet := Run(raw, ids).sheet; var txns := Normalize(raw, ids).value;
      |sheet| == |txns| + 1 && sheet[0] == HeaderRow() &&
      forall k :: 0 <= k < |txns| ==> sheet[k + 1] == OutputRow(txns[k]) && |sheet[k + 1]| == 9
  {
  }

  /** On an unknown row the amount, sender and receiver cells stay "". */
  lemma UnknownRowBlank(row: Labeled, description: string, id: string)
    requires ToTxn(row, description, id).kind == Unknown
    ensures var r := OutputRow(ToTxn(row, description, id));
      r[5] == Str("") && r[2] == Str("") && r[3] == Str("") && r[6] == Str("Unknown")
  {
    var parts := Split(description, '/');
    ClassifyCases(Get(row, "Debit Amount"), Get(row, "Credit Amount"), Mid(parts));
  }

  /**
   * The script and the browser write the same values for a transaction,
   * column by column, except that the script's type label is capitalised
   * and its amount is not passed through `Number`.
   */
  lemma AgreesWithBrowser(t: Txn)
    ensures var r, o := OutputRow(t), App.TxnRecord(t);
      forall i :: 0 <= i < 9 && i != 5 && i != 6 ==> r[i] == o[i].value
    ensures ToLower(Label(t.kind)) == App.Label(t.kind)
    ensures App.TxnRecord(t)[5].value == App.NumberOf(OutputRow(t)[5])
  {
    match t.kind {
      case Debit => assert ToLower("Debit") == "debit";
      case Credit => assert ToLower("Credit") == "credit";
      case Unknown => assert ToLower("Unknown") == "unknown";
    }
  }
}
