/**
 * The bank-statement normaliser that the browser upload handler and the
 * standalone script share: locate the header row, zip every later row
 * against it into a labeled row, keep the rows whose Description holds a
 * '/', split that description into segments, and classify each kept row as
 * a debit, a credit or unknown.
 *
 * Transaction identifiers come from outside (the upload handler draws them at
 * random): `ids(k)` is the identifier of the k-th transaction produced.
 */
module Normalizer {
  import opened Wrappers
  import opened Cells
  import opened Text

  /** A labeled row: header text to cell, as `obj[key] = row[i]` builds it. */
  type Labeled = map<string, Cell>

  datatype Error =
    | HeaderNotFound       // no row holds the three marker headers
    | DescriptionNotText   // a non-zero number in Description: `.includes` on a number throws

  datatype Kind = Debit | Credit | Unknown

  /** The account holder, hard-wired as the party on our side of every transaction. */
  const Holder: string := "DEEPAK"

  /** A normalised transaction, before either output view renders it. */
  datatype Txn = Txn(
    date: Cell,
    transactionId: string,
    sender: string,
    receiver: string,
    category: string,
    amount: Cell,
    kind: Kind,
    balance: Cell,
    description: string)

  // ---------------------------------------------------------------------
  // Header row

  predicate IsHeaderRow(row: seq<Cell>)
  {
    Str("Description") in row && Str("Debit Amount") in row && Str("Credit Amount") in row
  }

  function FindFrom(rows: seq<seq<Cell>>, i: nat): (r: Option<nat>)
    requires i <= |rows|
    ensures r.Some? ==> i <= r.value < |rows| && IsHeaderRow(rows[r.value])
    ensures r.Some? ==> forall j :: i <= j < r.value ==> !IsHeaderRow(rows[j])
    ensures r.None? ==> forall j :: i <= j < |rows| ==> !IsHeaderRow(rows[j])
    decreases |rows| - i
  {
    if i == |rows| then None
    else if IsHeaderRow(rows[i]) then Some(i)
    else FindFrom(rows, i + 1)
  }

  /** `rows.findIndex(IsHeaderRow)`, with None for -1. */
  function FindHeaderRow(rows: seq<seq<Cell>>): (r: Option<nat>)
    ensures r.Some? ==> r.value < |rows| && IsHeaderRow(rows[r.value])
    ensures r.Some? ==> forall j :: 0 <= j < r.value ==> !IsHeaderRow(rows[j])
    ensures r.None? <==> forall j :: 0 <= j < |rows| ==> !IsHeaderRow(rows[j])
  {
    FindFrom(rows, 0)
  }

  // ---------------------------------------------------------------------
  // Labeled rows

  /** `row[i]`: undefined (Empty) past the end of the row. */
  function CellAt(row: seq<Cell>, i: nat): Cell
  {
    if i < |row| then row[i] else Empty
  }

  /**
   * The object `headers.forEach((key, i) => { obj[key] = row[i]; })` leaves
   * behind: header positions are visited left to right, so a repeated
   * header keeps the cell of its last position.
   */
  function Zip(headers: seq<Cell>, row: seq<Cell>): Labeled
    decreases |headers|
  {
    if |headers| == 0 then map[]
    else
      var n := |headers| - 1;
      var m := Zip(headers[..n], row);
      match KeyOf(headers[n])
      case None => m
      case Some(k) => m[k := CellAt(row, n)]
  }

  /** The keys of a labeled row are exactly the keys of the non-hole header cells. */
  lemma {:induction false} ZipKeys(headers: seq<Cell>, row: seq<Cell>, k: string)
    ensures k in Zip(headers, row) <==> exists i :: 0 <= i < |headers| && KeyOf(headers[i]) == Some(k)
    decreases |headers|
  {
    if |headers| > 0 {
      var n := |headers| - 1;
      ZipKeys(headers[..n], row, k);
      assert forall i :: 0 <= i < n ==> headers[..n][i] == headers[i];
    }
  }

  /** The header at position i labels the cell at position i of the row (the last such header wins). */
  lemma {:induction false} ZipValue(headers: seq<Cell>, row: seq<Cell>, i: nat, k: string)
    requires i < |headers| && KeyOf(headers[i]) == Some(k)
    requires forall j :: i < j < |headers| ==> KeyOf(headers[j]) != Some(k)
    ensures k in Zip(headers, row) && Zip(headers, row)[k] == CellAt(row, i)
    decreases |headers|
  {
    var n := |headers| - 1;
    if i < n {
      ZipValue(headers[..n], row, i, k);
    }
  }

  /** The in-place build of one labeled row, as App.jsx's `forEach` does it. */
  method BuildLabeledRow(headers: seq<Cell>, row: seq<Cell>) returns (obj: Labeled)
    ensures obj == Zip(headers, row)
  {
    obj := map[];
    var i := 0;
    while i < |headers|
      invariant 0 <= i <= |headers|
      invariant obj == Zip(headers[..i], row)
    {
      assert headers[..i + 1][..i] == headers[..i];
      match KeyOf(headers[i]) {
        case Some(k) => obj := obj[k := CellAt(row, i)];
        case None =>
      }
      i := i + 1;
    }
    assert headers[..|headers|] == headers;
  }

  /** `transactionRows.map(...)`: one labeled row per raw row, in order. */
  function LabelRows(headers: seq<Cell>, rows: seq<seq<Cell>>): seq<Labeled>
  {
    seq(|rows|, i requires 0 <= i < |rows| => Zip(headers, rows[i]))
  }

  lemma LabelRowsAppend(headers: seq<Cell>, a: seq<seq<Cell>>, b: seq<seq<Cell>>)
    ensures LabelRows(headers, a + b) == LabelRows(headers, a) + LabelRows(headers, b)
  {
  }

  // ---------------------------------------------------------------------
  // The '/' filter

  /** `row['Description']`: Empty when the key is absent. */
  function Get(row: Labeled, k: string): Cell
  {
    if k in row then row[k] else Empty
  }

  /** A row that passed the filter, with its description text. */
  datatype Kept = Kept(row: Labeled, description: string)

  /** The filter throws on this row: `(n || '').includes` on a non-zero number. */
  predicate Throws(row: Labeled)
  {
    Get(row, "Description").Num? && Get(row, "Description").n != 0
  }

  /**
   * `(row['Description'] || '').includes('/')`: Some(text) when the row
   * is kept, None when it is dropped, an error when the test throws.
   */
  function KeepDescription(row: Labeled): Result<Option<string>, Error>
  {
    match Get(row, "Description")
    case Empty => Ok(None)
    case Str(s) => Ok(if '/' in s then Some(s) else None)
    case Num(n) => if n == 0 then Ok(None) else Err(DescriptionNotText)
  }

  /** `rows.filter(...)`, which stops at the first row whose test throws. */
  function Select(rows: seq<Labeled>): Result<seq<Kept>, Error>
  {
    if |rows| == 0 then Ok([])
    else
      match KeepDescription(rows[0])
      case Err(e) => Err(e)
      case Ok(d) =>
        match Select(rows[1..])
        case Err(e) => Err(e)
        case Ok(rest) => Ok((if d.Some? then [Kept(rows[0], d.value)] else []) + rest)
  }

  /** The filter fails exactly when some row throws, and then with DescriptionNotText. */
  lemma {:induction false} SelectFails(rows: seq<Labeled>)
    ensures Select(rows).Err? <==> exists i :: 0 <= i < |rows| && Throws(rows[i])
    ensures Select(rows).Err? ==> Select(rows).error == DescriptionNotText
  {
    if |rows| > 0 {
      SelectFails(rows[1..]);
      assert forall i :: 1 <= i < |rows| ==> rows[i] == rows[1..][i - 1];
    }
  }

  /**
   * What the filter keeps: no more entries than rows, each a row of the
   * input whose Description is the text kept, and that text holds a '/'.
   */
  lemma {:induction false} SelectKeeps(rows: seq<Labeled>)
    requires Select(rows).Ok?
    ensures |Select(rows).value| <= |rows|
    ensures forall k :: 0 <= k < |Select(rows).value| ==>
      var e := Select(rows).value[k];
      e.row in rows && '/' in e.description && Get(e.row, "Description") == Str(e.description)
  {
    if |rows| > 0 {
      SelectKeeps(rows[1..]);
    }
  }

  /** A row with a textual Description holding '/' is kept; any other row that does not throw is dropped. */
  lemma SelectOne(row: Labeled)
    ensures (Get(row, "Description").Str? && '/' in Get(row, "Description").s) ==>
      Select([row]) == Ok([Kept(row, Get(row, "Description").s)])
    ensures !Throws(row) && !(Get(row, "Description").Str? && '/' in Get(row, "Description").s) ==>
      Select([row]) == Ok([])
  {
    assert [row][0] == row && [row][1..] == [];
    assert Select([]) == Ok([]);
    var d := Get(row, "Description");
    if d.Str? && '/' in d.s {
      assert KeepDescription(row) == Ok(Some(d.s));
      assert Select([row]) == Ok([Kept(row, d.s)] + []);
      assert [Kept(row, d.s)] + [] == [Kept(row, d.s)];
    } else if !Throws(row) {
      assert KeepDescription(row) == Ok(None);
      assert Select([row]) == Ok([] + []);
      var none: seq<Kept> := [];
      assert none + none == none;
    }
  }

  /** The filter preserves order: filtering a concatenation concatenates the results. */
  lemma {:induction false} SelectAppend(a: seq<Labeled>, b: seq<Labeled>)
    requires Select(a).Ok? && Select(b).Ok?
    ensures Select(a + b) == Ok(Select(a).value + Select(b).value)
  {
    if |a| == 0 {
      assert a + b == b;
      assert [] + Select(b).value == Select(b).value;
    } else {
      var ab := a + b;
      assert ab[0] == a[0] && ab[1..] == a[1..] + b;
      var d := KeepDescription(a[0]);
      assert d.Ok?;
      assert Select(a[1..]).Ok?;
      SelectAppend(a[1..], b);
      var pre: seq<Kept> := if d.value.Some? then [Kept(a[0], d.value.value)] else [];
      assert Select(a) == Ok(pre + Select(a[1..]).value);
      assert Select(ab) == Ok(pre + Select(a[1..] + b).value);
      assert pre + (Select(a[1..]).value + Select(b).value) == (pre + Select(a[1..]).value) + Select(b).value;
    }
  }

  // ---------------------------------------------------------------------
  // Description segments

  /** `parts.length > 1 ? parts[1].trim() : ''`: the counterparty. */
  function Mid(parts: seq<string>): string
  {
    if |parts| > 1 then Trim(parts[1]) else ""
  }

  /** `parts.length > 2 ? parts[parts.length - 1].trim() : ''`: the category. */
  function Category(parts: seq<string>): string
  {
    if |parts| > 2 then Trim(parts[|parts| - 1]) else ""
  }

  /** Without a '/', a description has neither a counterparty nor a category. */
  lemma SegmentsWithoutSlash(s: string)
    requires '/' !in s
    ensures Mid(Split(s, '/')) == "" && Category(Split(s, '/')) == ""
  {
    SplitWithoutSeparator(s, '/');
  }

  /** "a/b": the counterparty is b trimmed, and there is no category. */
  lemma SegmentsOfTwo(a: string, b: string)
    requires '/' !in a && '/' !in b
    ensures Mid(Split(a + "/" + b, '/')) == Trim(b)
    ensures Category(Split(a + "/" + b, '/')) == ""
  {
    SplitAround(a, '/', b);
    SplitWithoutSeparator(a, '/');
    SplitWithoutSeparator(b, '/');
  }

  /** "a/b/rest": the counterparty is b trimmed, whatever follows the second '/'. */
  lemma SegmentsMid(a: string, b: string, rest: string)
    requires '/' !in a && '/' !in b
    ensures Mid(Split(a + "/" + b + "/" + rest, '/')) == Trim(b)
  {
    var tail := b + ['/'] + rest;
    assert a + "/" + b + "/" + rest == a + ['/'] + tail;
    SplitAround(a, '/', tail);
    SplitAround(b, '/', rest);
    SplitWithoutSeparator(a, '/');
    SplitWithoutSeparator(b, '/');
    var parts := Split(a + ['/'] + tail, '/');
    assert parts == [a] + ([b] + Split(rest, '/'));
    assert parts[1] == b;
  }

  /** With at least two '/', the category is what follows the last '/', trimmed. */
  lemma SegmentsCategory(p: string, c: string)
    requires '/' in p && '/' !in c
    ensures Category(Split(p + "/" + c, '/')) == Trim(c)
  {
    assert p + "/" + c == p + ['/'] + c;
    SplitAround(p, '/', c);
    SplitWithoutSeparator(c, '/');
    SplitCount(p, '/');
    OccurrencesPositive(p, '/');
    var parts := Split(p + ['/'] + c, '/');
    assert parts == Split(p, '/') + [c];
    assert |parts| > 2;
    assert parts[|parts| - 1] == c;
  }

  /** "a/b/c" with slash-free segments: counterparty b and category c, both trimmed. */
  lemma SegmentsOfThree(a: string, b: string, c: string)
    requires '/' !in a && '/' !in b && '/' !in c
    ensures Mid(Split(a + "/" + b + "/" + c, '/')) == Trim(b)
    ensures Category(Split(a + "/" + b + "/" + c, '/')) == Trim(c)
  {
    SegmentsMid(a, b, c);
    var p := a + "/" + b;
    assert p[|a|] == '/';
    assert a + "/" + b + "/" + c == p + "/" + c;
    SegmentsCategory(p, c);
  }

  // ---------------------------------------------------------------------
  // Classification

  datatype Classified = Classified(amount: Cell, kind: Kind, sender: string, receiver: string)

  /** First match wins: a truthy debit, else a truthy credit, else unknown. */
  function Classify(debit: Cell, credit: Cell, mid: string): Classified
  {
    if Truthy(debit) then Classified(debit, Debit, Holder, mid)
    else if Truthy(credit) then Classified(credit, Credit, mid, Holder)
    else Classified(Str(""), Unknown, "", "")
  }

  /**
   * The if / else chain over the `let` variables of the upload handler.  The type
   * starts out unset and every branch sets it, so it is never left unset.
   */
  method ClassifyRow(debit: Cell, credit: Cell, mid: string)
    returns (amount: Cell, kind: Kind, sender: string, receiver: string)
    ensures Classified(amount, kind, sender, receiver) == Classify(debit, credit, mid)
  {
    amount, sender, receiver := Str(""), "", "";
    var kindSet: Option<Kind> := None;
    if Truthy(debit) {
      kindSet := Some(Debit);
      amount := debit;
      sender := Holder;
      receiver := mid;
    } else if Truthy(credit) {
      kindSet := Some(Credit);
      amount := credit;
      receiver := Holder;
      sender := mid;
    } else {
      kindSet := Some(Unknown);
    }
    kind := kindSet.value;
  }

  /**
   * The three outcomes are exclusive and decided in order; on a known side
   * the holder is exactly one party and the counterparty the other, and the
   * amount is the truthy cell; unknown rows have no amount and no parties.
   */
  lemma ClassifyCases(debit: Cell, credit: Cell, mid: string)
    ensures var c := Classify(debit, credit, mid);
      (c.kind == Debit <==> Truthy(debit)) &&
      (c.kind == Credit <==> !Truthy(debit) && Truthy(credit)) &&
      (c.kind == Unknown <==> !Truthy(debit) && !Truthy(credit)) &&
      (c.kind != Unknown <==> Truthy(c.amount)) &&
      (c.kind == Debit ==> c.amount == debit && c.sender == Holder && c.receiver == mid) &&
      (c.kind == Credit ==> c.amount == credit && c.sender == mid && c.receiver == Holder) &&
      (c.kind == Unknown ==> c.amount == Str("") && c.sender == "" && c.receiver == "")
  {
  }

  // ---------------------------------------------------------------------
  // The pipeline

  /** The per-row `map` callback. */
  function ToTxn(row: Labeled, description: string, id: string): Txn
  {
    var parts := Split(description, '/');
    var c := Classify(Get(row, "Debit Amount"), Get(row, "Credit Amount"), Mid(parts));
    Txn(Or(Get(row, "Txn Date"), Str("")), id, c.sender, c.receiver, Category(parts),
        c.amount, c.kind, Or(Get(row, "Balance"), Str("")), description)
  }

  /** The kept rows mapped in order; the k-th takes the k-th identifier. */
  function Transactions(kept: seq<Kept>, ids: nat -> string): seq<Txn>
  {
    seq(|kept|, k requires 0 <= k < |kept| => ToTxn(kept[k].row, kept[k].description, ids(k)))
  }

  /** The whole normaliser over the raw rows of a sheet. */
  function Normalize(raw: seq<seq<Cell>>, ids: nat -> string): Result<seq<Txn>, Error>
  {
    match FindHeaderRow(raw)
    case None => Err(HeaderNotFound)
    case Some(h) =>
      match Select(LabelRows(raw[h], raw[h + 1..]))
      case Err(e) => Err(e)
      case Ok(kept) => Ok(Transactions(kept, ids))
  }

  /** Normalisation fails with HeaderNotFound exactly when no row is a header row. */
  lemma NormalizeHeaderNotFound(raw: seq<seq<Cell>>, ids: nat -> string)
    ensures Normalize(raw, ids) == Err(HeaderNotFound) <==>
            forall j :: 0 <= j < |raw| ==> !IsHeaderRow(raw[j])
  {
    var h := FindHeaderRow(raw);
    if h.Some? {
      SelectFails(LabelRows(raw[h.value], raw[h.value + 1..]));
    }
  }

  /**
   * A successful run reads rows only after the first header row, yields no
   * more transactions than there are such rows, and every transaction is
   * the per-row mapping of one of them, labeled by the header row, with the
   * original text of that row's Description, which holds a '/'.
   */
  lemma NormalizeOutput(raw: seq<seq<Cell>>, ids: nat -> string)
    requires Normalize(raw, ids).Ok?
    ensures FindHeaderRow(raw).Some?
    ensures var h := FindHeaderRow(raw).value; var txns := Normalize(raw, ids).value;
      |txns| <= |raw| - h - 1 &&
      forall k :: 0 <= k < |txns| ==>
        '/' in txns[k].description && txns[k].transactionId == ids(k) &&
        exists i :: (h < i < |raw| && Get(Zip(raw[h], raw[i]), "Description") == Str(txns[k].description) &&
                     txns[k] == ToTxn(Zip(raw[h], raw[i]), txns[k].description, ids(k)))
  {
    var h := FindHeaderRow(raw).value;
    var labeled := LabelRows(raw[h], raw[h + 1..]);
    var kept := Select(labeled).value;
    SelectKeeps(labeled);
    var txns := Normalize(raw, ids).value;
    forall k | 0 <= k < |txns|
      ensures '/' in txns[k].description && txns[k].transactionId == ids(k)
      ensures exists i :: (h < i < |raw| && Get(Zip(raw[h], raw[i]), "Description") == Str(txns[k].description) &&
                           txns[k] == ToTxn(Zip(raw[h], raw[i]), txns[k].description, ids(k)))
    {
      var e := kept[k];
      var j :| 0 <= j < |labeled| && labeled[j] == e.row;
      assert raw[h + 1..][j] == raw[h + 1 + j];
      assert Zip(raw[h], raw[h + 1 + j]) == e.row;
      assert txns[k] == ToTxn(e.row, e.description, ids(k));
      assert Get(Zip(raw[h], raw[h + 1 + j]), "Description") == Str(txns[k].description);
    }
  }

  /** Date and balance fall back to "" when falsy; the rest follows the classification. */
  lemma TxnFields(row: Labeled, description: string, id: string)
    ensures var t := ToTxn(row, description, id);
      t.description == description && t.transactionId == id &&
      t.date == (if Truthy(Get(row, "Txn Date")) then Get(row, "Txn Date") else Str("")) &&
      t.balance == (if Truthy(Get(row, "Balance")) then Get(row, "Balance") else Str("")) &&
      t.category == Category(Split(description, '/')) &&
      Classified(t.amount, t.kind, t.sender, t.receiver) ==
        Classify(Get(row, "Debit Amount"), Get(row, "Credit Amount"), Mid(Split(description, '/')))
  {
  }

  /**
   * Running the normaliser twice on the same rows gives transactions that
   * agree in every field but the identifier.
   */
  lemma NormalizeDeterministic(raw: seq<seq<Cell>>, ids1: nat -> string, ids2: nat -> string)
    ensures Normalize(raw, ids1).Ok? <==> Normalize(raw, ids2).Ok?
    ensures Normalize(raw, ids1).Err? ==> Normalize(raw, ids1) == Normalize(raw, ids2)
    ensures Normalize(raw, ids1).Ok? ==>
      var t1, t2 := Normalize(raw, ids1).value, Normalize(raw, ids2).value;
      |t1| == |t2| &&
      forall k :: 0 <= k < |t1| ==> t1[k].(transactionId := "") == t2[k].(transactionId := "")
  {
    if Normalize(raw, ids1).Ok? {
      var h := FindHeaderRow(raw).value;
      var kept := Select(LabelRows(raw[h], raw[h + 1..])).value;
      var t1, t2 := Normalize(raw, ids1).value, Normalize(raw, ids2).value;
      forall k | 0 <= k < |t1|
        ensures t1[k].(transactionId := "") == t2[k].(transactionId := "")
      {
        assert t1[k] == ToTxn(kept[k].row, kept[k].description, ids1(k));
        assert t2[k] == ToTxn(kept[k].row, kept[k].description, ids2(k));
      }
    }
  }

  /**
   * A debit row described "a/b/c", such as 500 debited with
   * "PUR/AMAZON/SHOPPING": the holder pays b, filed under c.
   */
  lemma DebitRow(row: Labeled, a: string, b: string, c: string, id: string)
    requires Truthy(Get(row, "Debit Amount"))
    requires Plain(a) && Plain(b) && Plain(c)
    ensures var t := ToTxn(row, a + "/" + b + "/" + c, id);
      t.kind == Debit && t.amount == Get(row, "Debit Amount") && t.sender == Holder &&
      t.receiver == b && t.category == c
  {
    Segments(a, b, c);
  }

  /**
   * A credit row described "a/b/c", such as 1200 credited with
   * "SAL/INFOSYS/SALARY": b pays the holder, filed under c.
   */
  lemma CreditRow(row: Labeled, a: string, b: string, c: string, id: string)
    requires !Truthy(Get(row, "Debit Amount")) && Truthy(Get(row, "Credit Amount"))
    requires Plain(a) && Plain(b) && Plain(c)
    ensures var t := ToTxn(row, a + "/" + b + "/" + c, id);
      t.kind == Credit && t.amount == Get(row, "Credit Amount") && t.sender == b &&
      t.receiver == Holder && t.category == c
  {
    Segments(a, b, c);
  }

  /** A segment with no '/' and no white space at either end. */
  predicate Plain(x: string)
  {
    '/' !in x && (x == [] || (!IsSpace(x[0]) && !IsSpace(x[|x| - 1])))
  }

  lemma TrimOfPlain(x: string)
    requires Plain(x)
    ensures Trim(x) == x
  {
    TrimExact([], x, []);
    assert [] + x + [] == x;
  }

  lemma Segments(a: string, b: string, c: string)
    requires Plain(a) && Plain(b) && Plain(c)
    ensures Mid(Split(a + "/" + b + "/" + c, '/')) == b
    ensures Category(Split(a + "/" + b + "/" + c, '/')) == c
  {
    SegmentsOfThree(a, b, c);
    TrimOfPlain(b);
    TrimOfPlain(c);
  }
}
