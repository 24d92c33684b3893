/**
 * The upload handler of the browser application: the schema detector on
 * the records view of the first worksheet, the in-browser normaliser on
 * its raw-rows view, and the transaction list it stores.
 *
 * The spreadsheet reader is outside the model: `records` is what it gives
 * for the sheet read as records (first row = keys), `raw` what it gives
 * for the same sheet read as raw rows.
 */
module App {
  import opened Wrappers
  import opened Cells
  import opened Text
  import opened Normalizer
  import Utils

  const RequiredColumns: seq<string> := ["type", "amount", "description"]

  /** `Object.keys(record).map(k => k.toLowerCase())`. */
  function LowerKeys(record: Record): seq<string>
  {
    seq(|record|, i requires 0 <= i < |record| => ToLower(record[i].key))
  }

  /** `cols.every(col => keys.includes(col))`. */
  function Every(cols: seq<string>, keys: seq<string>): (r: bool)
    ensures r <==> forall i :: 0 <= i < |cols| ==> cols[i] in keys
  {
    if |cols| == 0 then true
    else
      var r := cols[0] in keys && Every(cols[1..], keys);
      assert forall i :: 1 <= i < |cols| ==> cols[i] == cols[1..][i - 1];
      r
  }

  /**
   * The detector: true exactly when there is a first record and each of
   * "type", "amount" and "description" is one of its keys lower-cased.
   * An empty sheet is not canonical, so it goes to the normaliser.
   */
  function HasRequiredColumns(records: seq<Record>): (r: bool)
    ensures r <==> (|records| > 0 &&
                    forall j :: 0 <= j < |RequiredColumns| ==>
                      exists i :: 0 <= i < |records[0]| && ToLower(records[0][i].key) == RequiredColumns[j])
  {
    if |records| == 0 then false
    else
      var keys := LowerKeys(records[0]);
      assert |keys| == |records[0]| && forall i :: 0 <= i < |keys| ==> keys[i] == ToLower(records[0][i].key);
      assert forall col :: col in keys <==> exists i :: 0 <= i < |keys| && keys[i] == col;
      Every(RequiredColumns, keys)
  }

  /** The type label the browser writes: lower case. */
  function Label(k: Kind): string
  {
    match k
    case Debit => "debit"
    case Credit => "credit"
    case Unknown => "unknown"
  }

  /**
   * `Number(amount)`, followed for numbers (kept) and for blank text (0,
   * which is what the unknown branch's '' becomes); any other text is kept
   * as text.
   */
  function NumberOf(c: Cell): Cell
  {
    match c
    case Str(s) => if Trim(s) == "" then Num(0) else c
    case _ => c
  }

  const TransactionKeys: seq<string> :=
    ["date", "transactionId", "sender", "receiver", "category", "amount", "type",
     "balanceAfterTransaction", "description"]

  /** The object literal the browser builds for one transaction. */
  function TxnRecord(t: Txn): Record
  {
    [Field("date", t.date),
     Field("transactionId", Str(t.transactionId)),
     Field("sender", Str(t.sender)),
     Field("receiver", Str(t.receiver)),
     Field("category", Str(t.category)),
     Field("amount", NumberOf(t.amount)),
     Field("type", Str(Label(t.kind))),
     Field("balanceAfterTransaction", t.balance),
     Field("description", Str(t.description))]
  }

  function TxnRecords(txns: seq<Txn>): seq<Record>
  {
    seq(|txns|, k requires 0 <= k < |txns| => TxnRecord(txns[k]))
  }

  /** What one upload leaves behind. */
  datatype Upload =
    | Stored(transactions: seq<Record>)   // stored, then handed to the insights call
    | HeaderAlert                         // alert shown; nothing stored, no insights call
    | Threw                               // the handler threw; nothing stored

  function HandleUpload(records: seq<Record>, raw: seq<seq<Cell>>, ids: nat -> string): Upload
  {
    if HasRequiredColumns(records) then Stored(records)
    else
      match Normalize(raw, ids)
      case Ok(txns) => Stored(TxnRecords(txns))
      case Err(HeaderNotFound) => HeaderAlert
      case Err(DescriptionNotText) => Threw
  }

  /** A record in canonical shape is stored as it is, never normalised. */
  lemma PassThrough(records: seq<Record>, raw: seq<seq<Cell>>, ids: nat -> string)
    requires HasRequiredColumns(records)
    ensures HandleUpload(records, raw, ids) == Stored(records)
  {
  }

  /**
   * On the normaliser path, the upload ends in the header alert exactly
   * when no raw row holds the three marker headers.
   */
  lemma HeaderAlertExactly(records: seq<Record>, raw: seq<seq<Cell>>, ids: nat -> string)
    requires !HasRequiredColumns(records)
    ensures HandleUpload(records, raw, ids) == HeaderAlert <==>
            forall j :: 0 <= j < |raw| ==> !IsHeaderRow(raw[j])
  {
    NormalizeHeaderNotFound(raw, ids);
    SelectFails([]);
  }

  lemma TxnRecordKeys(t: Txn)
    ensures Keys(TxnRecord(t)) == TransactionKeys
  {
    var r, ks := TxnRecord(t), Keys(TxnRecord(t));
    assert |ks| == |TransactionKeys| == 9;
    assert ks[0] == r[0].key == "date";
    assert ks[1] == r[1].key == "transactionId";
    assert ks[2] == r[2].key == "sender";
    assert ks[3] == r[3].key == "receiver";
    assert ks[4] == r[4].key == "category";
    assert ks[5] == r[5].key == "amount";
    assert ks[6] == r[6].key == "type";
    assert ks[7] == r[7].key == "balanceAfterTransaction";
    assert ks[8] == r[8].key == "description";
  }

  /** The type field is always one of the three non-empty labels and agrees with the kind. */
  lemma TxnRecordType(t: Txn)
    ensures TxnRecord(t)[6] == Field("type", Str(Label(t.kind)))
    ensures Label(t.kind) in ["debit", "credit", "unknown"] && Label(t.kind) != ""
  {
  }

  /** `Number('')` is 0. */
  lemma BlankIsZero()
    ensures NumberOf(Str("")) == Num(0)
  {
    var blank: string := [];
    assert |TrimStart(blank)| <= 0;
    assert |TrimEnd(TrimStart(blank))| <= 0;
    assert Trim(blank) == [];
  }

  /** An unknown row's amount is `Number('')`, that is 0. */
  lemma UnknownAmountZero(row: Labeled, description: string, id: string)
    requires ToTxn(row, description, id).kind == Unknown
    ensures TxnRecord(ToTxn(row, description, id))[5] == Field("amount", Num(0))
  {
    var t := ToTxn(row, description, id);
    TxnFields(row, description, id);
    ClassifyCases(Get(row, "Debit Amount"), Get(row, "Credit Amount"), Mid(Split(description, '/')));
    assert t.amount == Str("");
    BlankIsZero();
  }

  /**
   * What the normaliser path stores: one record per transaction in order,
   * never more than the rows after the header, each with the transaction
   * key set and a description holding '/'.
   */
  lemma StoredFromNormalizer(records: seq<Record>, raw: seq<seq<Cell>>, ids: nat -> string)
    requires !HasRequiredColumns(records)
    requires HandleUpload(records, raw, ids).Stored?
    ensures Normalize(raw, ids).Ok?
    ensures var stored := HandleUpload(records, raw, ids).transactions;
      var txns := Normalize(raw, ids).value;
      |stored| == |txns| < |raw| &&
      forall k :: 0 <= k < |stored| ==>
        stored[k] == TxnRecord(txns[k]) && Keys(stored[k]) == TransactionKeys &&
        stored[k][8] == Field("description", Str(txns[k].description)) && '/' in txns[k].description
  {
    NormalizeOutput(raw, ids);
    var txns := Normalize(raw, ids).value;
    var stored := TxnRecords(txns);
    forall k | 0 <= k < |stored|
      ensures stored[k] == TxnRecord(txns[k]) && Keys(stored[k]) == TransactionKeys
      ensures stored[k][8] == Field("description", Str(txns[k].description))
    {
      TxnRecordKeys(txns[k]);
    }
  }

  lemma LowerFixed(s: string)
    requires forall i :: 0 <= i < |s| ==> !('A' <= s[i] <= 'Z')
    ensures ToLower(s) == s
  {
  }

  /**
   * What the normaliser stores is itself canonical: uploading it again
   * would take the pass-through path.
   */
  lemma NormalizedIsCanonical(txns: seq<Txn>)
    requires |txns| > 0
    ensures HasRequiredColumns(TxnRecords(txns))
  {
    var r := TxnRecord(txns[0]);
    assert TxnRecords(txns)[0] == r;
    LowerFixed("type");
    LowerFixed("amount");
    LowerFixed("description");
    assert ToLower(r[6].key) == "type";
    assert ToLower(r[5].key) == "amount";
    assert ToLower(r[8].key) == "description";
  }

  lemma KeysSingleLine()
    ensures forall i :: 0 <= i < |TransactionKeys| ==> '\n' !in TransactionKeys[i]
  {
    forall i | 0 <= i < |TransactionKeys| ensures '\n' !in TransactionKeys[i] {
      var k := TransactionKeys[i];
      assert forall j :: 0 <= j < |k| ==> 'a' <= k[j] <= 'z' || 'A' <= k[j] <= 'Z';
    }
  }

  /** CSV text of records whose first record has exactly the nine transaction keys. */
  lemma CsvOfTransactionKeys(data: seq<Record>)
    requires |data| > 0 && Keys(data[0]) == TransactionKeys
    ensures Utils.CsvLines(data)[0] == Join(TransactionKeys, ',')
    ensures |Split(Utils.CsvText(Some(data)), '\n')| == |data| + 1
  {
    Utils.CsvHeader(data);
    KeysSingleLine();
    forall i | 0 <= i < |data[0]| ensures '\n' !in data[0][i].key {
      assert data[0][i].key == Keys(data[0])[i];
    }
    Utils.CsvLineCount(data);
  }

  /**
   * The text handed to the insights call for normalised transactions
   * starts with the nine transaction keys, in the object literal's order.
   */
  lemma InsightsCsvHeader(txns: seq<Txn>)
    requires |txns| > 0
    ensures Utils.CsvLines(TxnRecords(txns))[0] == Join(TransactionKeys, ',')
    ensures |Split(Utils.CsvText(Some(TxnRecords(txns))), '\n')| == |txns| + 1
  {
    var data := TxnRecords(txns);
    assert data[0] == TxnRecord(txns[0]);
    TxnRecordKeys(txns[0]);
    CsvOfTransactionKeys(data);
  }
}
