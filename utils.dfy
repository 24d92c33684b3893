/**
 * The two pure helpers next to the insights call: `convertToCSV`, which
 * serialises the stored transactions as comma-separated text, and the
 * defaulting of the already-parsed insights response into an object with
 * all seven insight keys.
 */
module Utils {
  import opened Wrappers
  import opened Cells
  import opened Text

  // ---------------------------------------------------------------------
  // JSON.stringify of strings and numbers

  function HexDigit(d: nat): (c: char)
    requires d < 16
  {
    if d < 10 then ('0' as int + d) as char else ('a' as int + d - 10) as char
  }

  /** How JSON.stringify writes one character inside a string literal. */
  function EscapeChar(c: char): string
  {
    if c == '"' then "\\\""
    else if c == '\\' then "\\\\"
    else if c == '\U{8}' then "\\b"
    else if c == '\U{C}' then "\\f"
    else if c == '\n' then "\\n"
    else if c == '\r' then "\\r"
    else if c == '\t' then "\\t"
    else if (c as int) < 0x20 then "\\u00" + [HexDigit(c as int / 16), HexDigit(c as int % 16)]
    else [c]
  }

  function Escape(s: string): string
  {
    if |s| == 0 then "" else EscapeChar(s[0]) + Escape(s[1..])
  }

  /** `JSON.stringify(s)` for a string s. */
  function JsonString(s: string): string
  {
    "\"" + Escape(s) + "\""
  }

  function HexValue(c: char): Option<nat>
  {
    if '0' <= c <= '9' then Some(c as int - '0' as int)
    else if 'a' <= c <= 'f' then Some(c as int - 'a' as int + 10)
    else if 'A' <= c <= 'F' then Some(c as int - 'A' as int + 10)
    else None
  }

  function Prepend(c: char, r: Option<string>): Option<string>
  {
    if r.Some? then Some([c] + r.value) else None
  }

  /** The two-character escapes of JSON, by the letter after the backslash. */
  function ShortEscape(d: char): Option<char>
  {
    if d == '"' then Some('"')
    else if d == '\\' then Some('\\')
    else if d == '/' then Some('/')
    else if d == 'b' then Some('\U{8}')
    else if d == 'f' then Some('\U{C}')
    else if d == 'n' then Some('\n')
    else if d == 'r' then Some('\r')
    else if d == 't' then Some('\t')
    else None
  }

  /** Decodes the body of a JSON string literal; None when an escape is malformed. */
  function Unescape(e: string): Option<string>
    decreases |e|
  {
    if |e| == 0 then Some("")
    else if e[0] != '\\' then Prepend(e[0], Unescape(e[1..]))
    else if |e| < 2 then None
    else if e[1] == 'u' then
      if |e| < 6 then None
      else
        var h := [HexValue(e[2]), HexValue(e[3]), HexValue(e[4]), HexValue(e[5])];
        if h[0].None? || h[1].None? || h[2].None? || h[3].None? then None
        else
          var code := ((h[0].value * 16 + h[1].value) * 16 + h[2].value) * 16 + h[3].value;
          if code >= 0xD800 && code < 0xE000 then None
          else Prepend(code as char, Unescape(e[6..]))
    else
      match ShortEscape(e[1])
      case Some(c) => Prepend(c, Unescape(e[2..]))
      case None => None
  }

  lemma HexRoundTrip(d: nat)
    requires d < 16
    ensures HexValue(HexDigit(d)) == Some(d)
  {
  }

  lemma {:induction false} UnescapeChar(c: char, t: string)
    ensures Unescape(EscapeChar(c) + t) == Prepend(c, Unescape(t))
  {
    var e := EscapeChar(c) + t;
    if c == '"' || c == '\\' || c == '\U{8}' || c == '\U{C}' || c == '\n' || c == '\r' || c == '\t' {
      assert e[0] == '\\' && e[2..] == t;
    } else if (c as int) < 0x20 {
      var hi, lo := c as int / 16, c as int % 16;
      HexRoundTrip(hi);
      HexRoundTrip(lo);
      assert e[0] == '\\' && e[1] == 'u' && e[2] == '0' && e[3] == '0';
      assert e[4] == HexDigit(hi) && e[5] == HexDigit(lo) && e[6..] == t;
      assert hi * 16 + lo == c as int;
    } else {
      assert e[0] == c && e[1..] == t;
    }
  }

  /** Decoding undoes JSON.stringify's escaping. */
  lemma {:induction false} EscapeRoundTrip(s: string)
    ensures Unescape(Escape(s)) == Some(s)
  {
    if |s| > 0 {
      EscapeRoundTrip(s[1..]);
      UnescapeChar(s[0], Escape(s[1..]));
      assert [s[0]] + s[1..] == s;
    }
  }

  /** An escaped character carries no control character (in particular no line break). */
  lemma EscapeCharPrintable(c: char)
    ensures forall i :: 0 <= i < |EscapeChar(c)| ==> EscapeChar(c)[i] as int >= 0x20
  {
  }

  lemma {:induction false} EscapePrintable(s: string)
    ensures forall i :: 0 <= i < |Escape(s)| ==> Escape(s)[i] as int >= 0x20
  {
    if |s| > 0 {
      EscapePrintable(s[1..]);
      EscapeCharPrintable(s[0]);
      var a, b := EscapeChar(s[0]), Escape(s[1..]);
      assert forall i :: |a| <= i < |a + b| ==> (a + b)[i] == b[i - |a|];
    }
  }

  // ---------------------------------------------------------------------
  // convertToCSV

  /** `JSON.stringify(row[h] || "")`: a missing or falsy value is written as "". */
  function CsvField(v: Option<Cell>): string
  {
    match v
    case Some(Str(s)) => JsonString(s)
    case Some(Num(n)) => if n != 0 then IntToString(n) else JsonString("")
    case _ => JsonString("")
  }

  /** The fields of one data line: one per header key, in header order. */
  function Fields(row: Record, headers: seq<string>): seq<string>
  {
    seq(|headers|, i requires 0 <= i < |headers| => CsvField(Lookup(row, headers[i])))
  }

  function DataLine(row: Record, headers: seq<string>): string
  {
    Join(Fields(row, headers), ',')
  }

  /** The header line (the first record's keys) and one line per record. */
  function CsvLines(data: seq<Record>): seq<string>
    requires |data| > 0
  {
    var headers := Keys(data[0]);
    [Join(headers, ',')] + seq(|data|, i requires 0 <= i < |data| => DataLine(data[i], headers))
  }

  /** What `convertToCSV(data)` returns; None stands for a missing argument. */
  function CsvText(data: Option<seq<Record>>): string
  {
    if data.None? || |data.value| == 0 then "" else Join(CsvLines(data.value), '\n')
  }

  /** `convertToCSV`: pushes the header line and then one line per record. */
  method ConvertToCsv(data: Option<seq<Record>>) returns (text: string)
    ensures text == CsvText(data)
  {
    if data.None? || |data.value| == 0 {
      return "";
    }
    var rows := data.value;
    var headers := Keys(rows[0]);
    var csv := [Join(headers, ',')];
    for i := 0 to |rows|
      invariant |csv| == i + 1
      invariant csv == CsvLines(rows)[..i + 1]
    {
      csv := csv + [DataLine(rows[i], headers)];
    }
    assert csv == CsvLines(rows);
    text := Join(csv, '\n');
  }

  /** The text is empty exactly when there is no record to write. */
  lemma CsvEmpty(data: Option<seq<Record>>)
    ensures CsvText(data) == "" <==> data.None? || |data.value| == 0
  {
    if data.Some? && |data.value| > 0 {
      var lines := CsvLines(data.value);
      assert |lines| >= 2;
      assert CsvText(data) == lines[0] + ['\n'] + Join(lines[1..], '\n');
    }
  }

  lemma DigitsPrintable(n: int)
    ensures forall i :: 0 <= i < |IntToString(n)| ==> IntToString(n)[i] as int >= 0x20
  {
  }

  lemma CsvFieldPrintable(v: Option<Cell>)
    ensures forall i :: 0 <= i < |CsvField(v)| ==> CsvField(v)[i] as int >= 0x20
  {
    match v {
      case Some(Num(n)) =>
        DigitsPrintable(n);
        EscapePrintable("");
      case Some(Str(s)) =>
        EscapePrintable(s);
      case _ =>
        EscapePrintable("");
    }
  }

  /** No data line contains a line break, whatever the values hold. */
  lemma DataLineSingle(row: Record, headers: seq<string>)
    ensures '\n' !in DataLine(row, headers)
  {
    var fs := Fields(row, headers);
    forall i | 0 <= i < |fs| ensures '\n' !in fs[i] {
      CsvFieldPrintable(Lookup(row, headers[i]));
    }
    JoinAvoids(fs, ',', '\n');
  }

  /**
   * When no key of the first record holds a line break, the text splits
   * back into n + 1 lines: the header line, then each record's line in
   * input order.
   */
  lemma CsvLineCount(data: seq<Record>)
    requires |data| > 0
    requires forall i :: 0 <= i < |data[0]| ==> '\n' !in data[0][i].key
    ensures Split(CsvText(Some(data)), '\n') == CsvLines(data)
    ensures |Split(CsvText(Some(data)), '\n')| == |data| + 1
  {
    var lines := CsvLines(data);
    var headers := Keys(data[0]);
    forall i | 0 <= i < |lines| ensures '\n' !in lines[i] {
      if i == 0 {
        JoinAvoids(headers, ',', '\n');
      } else {
        DataLineSingle(data[i - 1], headers);
      }
    }
    SplitJoin(lines, '\n');
  }

  /** The header line is the first record's keys in key order; later records add none. */
  lemma CsvHeader(data: seq<Record>)
    requires |data| > 0
    ensures CsvLines(data)[0] == Join(Keys(data[0]), ',')
    ensures forall i :: 0 <= i < |data| ==> CsvLines(data)[i + 1] == DataLine(data[i], Keys(data[0]))
  {
  }

  lemma LookupAppended(row: Record, f: Field, k: string)
    requires k != f.key
    ensures Lookup(row + [f], k) == Lookup(row, k)
  {
    if |row| > 0 {
      assert (row + [f])[1..] == row[1..] + [f];
      LookupAppended(row[1..], f, k);
    }
  }

  /** A key that only a later record carries changes nothing in the text. */
  lemma LaterKeysIgnored(data: seq<Record>, i: nat, f: Field)
    requires 1 <= i < |data|
    requires f.key !in Keys(data[0])
    ensures CsvText(Some(data[i := data[i] + [f]])) == CsvText(Some(data))
  {
    var d := data[i := data[i] + [f]];
    var headers := Keys(data[0]);
    forall j | 0 <= j < |headers| ensures Lookup(d[i], headers[j]) == Lookup(data[i], headers[j]) {
      LookupAppended(data[i], f, headers[j]);
    }
    assert Fields(d[i], headers) == Fields(data[i], headers);
    assert CsvLines(d) == CsvLines(data);
  }

  // ---------------------------------------------------------------------
  // Reading a data line back into its fields

  /** Length of a quoted body up to and including its closing quote (all of s if there is none). */
  function QuotedLength(s: string): (n: nat)
    ensures n <= |s|
  {
    if |s| == 0 then 0
    else if s[0] == '"' then 1
    else if s[0] == '\\' && |s| >= 2 then 2 + QuotedLength(s[2..])
    else 1 + QuotedLength(s[1..])
  }

  function PlainLength(s: string): (n: nat)
    ensures n <= |s|
  {
    if |s| == 0 || s[0] == ',' then 0 else 1 + PlainLength(s[1..])
  }

  /** Length of the field at the start of s: a quoted literal, or text up to the next comma. */
  function TokenLength(s: string): (n: nat)
    ensures n <= |s|
  {
    if |s| > 0 && s[0] == '"' then 1 + QuotedLength(s[1..]) else PlainLength(s)
  }

  /** Cuts a line into its fields at the commas that lie outside quoted literals. */
  function SplitFields(line: string): seq<string>
    decreases |line|
  {
    var n := TokenLength(line);
    if n < |line| && line[n] == ',' then [line[..n]] + SplitFields(line[n + 1..])
    else [line]
  }

  /** The six-character `\u00XX` escape of a control character is read over as six characters. */
  lemma QuotedUnicode(c: char, t: string)
    requires (c as int) < 0x20
    requires c != '\U{8}' && c != '\U{C}' && c != '\n' && c != '\r' && c != '\t'
    ensures QuotedLength(EscapeChar(c) + t) == |EscapeChar(c)| + QuotedLength(t)
  {
    var u := EscapeChar(c);
    var e := u + t;
    assert |u| == 6 && u[0] == '\\' && u[1] == 'u';
    var e2, e3, e4, e5 := u[2..] + t, u[3..] + t, u[4..] + t, u[5..] + t;
    assert e[0] == '\\' && e[1] == 'u' && e[2..] == e2;
    assert e2[0] == '0' && e2[1..] == e3;
    assert e3[0] == '0' && e3[1..] == e4;
    assert e4[0] == HexDigit(c as int / 16) && e4[1..] == e5;
    assert e5[0] == HexDigit(c as int % 16) && e5[1..] == t;
    assert QuotedLength(e5) == 1 + QuotedLength(t);
    assert QuotedLength(e4) == 1 + QuotedLength(e5);
    assert QuotedLength(e3) == 1 + QuotedLength(e4);
    assert QuotedLength(e2) == 1 + QuotedLength(e3);
  }

  lemma QuotedChar(c: char, t: string)
    ensures QuotedLength(EscapeChar(c) + t) == |EscapeChar(c)| + QuotedLength(t)
  {
    var e := EscapeChar(c) + t;
    if c == '"' || c == '\\' || c == '\U{8}' || c == '\U{C}' || c == '\n' || c == '\r' || c == '\t' {
      assert e[0] == '\\' && e[2..] == t;
    } else if (c as int) < 0x20 {
      QuotedUnicode(c, t);
    } else {
      assert e[0] == c && e[1..] == t;
    }
  }

  lemma {:induction false} QuotedEscape(s: string, t: string)
    ensures QuotedLength(Escape(s) + t) == |Escape(s)| + QuotedLength(t)
  {
    if |s| > 0 {
      var a, b := EscapeChar(s[0]), Escape(s[1..]);
      assert Escape(s) == a + b;
      assert Escape(s) + t == a + (b + t);
      QuotedChar(s[0], b + t);
      QuotedEscape(s[1..], t);
      assert |Escape(s)| == |a| + |b|;
    } else {
      assert Escape(s) + t == t;
    }
  }

  lemma PlainDigits(d: string, t: string)
    requires forall i :: 0 <= i < |d| ==> d[i] != ','
    requires t == [] || t[0] == ','
    ensures PlainLength(d + t) == |d|
  {
    if |d| > 0 {
      assert (d + t)[1..] == d[1..] + t;
      PlainDigits(d[1..], t);
    } else {
      assert d + t == t;
    }
  }

  lemma StringToken(s: string, t: string)
    ensures TokenLength(JsonString(s) + t) == |JsonString(s)|
  {
    var f := JsonString(s) + t;
    assert f[0] == '"';
    assert f[1..] == Escape(s) + ("\"" + t);
    QuotedEscape(s, "\"" + t);
  }

  /** Each written field ends exactly where the next comma (or the line) begins. */
  lemma FieldToken(v: Option<Cell>, t: string)
    requires t == [] || t[0] == ','
    ensures TokenLength(CsvField(v) + t) == |CsvField(v)|
  {
    if v.Some? && v.value.Num? && v.value.n != 0 {
      var d := IntToString(v.value.n);
      assert CsvField(v) == d;
      assert forall i :: 0 <= i < |d| ==> d[i] != ',';
      PlainDigits(d, t);
    } else if v.Some? && v.value.Str? {
      assert CsvField(v) == JsonString(v.value.s);
      StringToken(v.value.s, t);
    } else {
      assert CsvField(v) == JsonString("");
      StringToken("", t);
    }
  }

  /** f is the text convertToCSV writes for some value. */
  ghost predicate Written(f: string)
  {
    exists v :: f == CsvField(v)
  }

  lemma {:induction false} SplitFieldsJoin(fs: seq<string>)
    requires |fs| >= 1
    requires forall i :: 0 <= i < |fs| ==> Written(fs[i])
    ensures SplitFields(Join(fs, ',')) == fs
  {
    var v :| fs[0] == CsvField(v);
    if |fs| == 1 {
      FieldToken(v, "");
      assert fs[0] + "" == fs[0];
    } else {
      var rest := Join(fs[1..], ',');
      FieldToken(v, [','] + rest);
      SplitFieldsCons(fs[0], rest);
      assert forall i :: 1 <= i < |fs| ==> fs[i] == fs[1..][i - 1];
      SplitFieldsJoin(fs[1..]);
      assert [fs[0]] + fs[1..] == fs;
    }
  }

  /** A field that ends at a comma is cut off there, and the rest is read on. */
  lemma SplitFieldsCons(f: string, rest: string)
    requires TokenLength(f + ([','] + rest)) == |f|
    ensures SplitFields(f + [','] + rest) == [f] + SplitFields(rest)
  {
    var line := f + [','] + rest;
    assert line == f + ([','] + rest);
    assert line[|f|] == ',';
    assert line[..|f|] == f && line[|f| + 1..] == rest;
  }

  /**
   * A data line reads back as exactly one field per header key, each
   * the JSON text of that key's value.
   */
  lemma DataLineFields(row: Record, headers: seq<string>)
    requires |headers| >= 1
    ensures SplitFields(DataLine(row, headers)) == Fields(row, headers)
    ensures |SplitFields(DataLine(row, headers))| == |headers|
  {
    var fs := Fields(row, headers);
    forall i | 0 <= i < |fs| ensures Written(fs[i]) {
      assert fs[i] == CsvField(Lookup(row, headers[i]));
    }
    SplitFieldsJoin(fs);
  }

  /** A truthy string value is written as a JSON literal that decodes back to it; any other text is "". */
  lemma FieldDecodes(v: Option<Cell>)
    ensures v.Some? && v.value.Str? ==>
      Unescape(CsvField(v)[1..|CsvField(v)| - 1]) == Some(v.value.s)
    ensures v.None? || !Truthy(v.value) ==> CsvField(v) == "\"\""
  {
    if v.Some? && v.value.Str? {
      var s := v.value.s;
      assert CsvField(v)[1..|CsvField(v)| - 1] == Escape(s);
      EscapeRoundTrip(s);
    }
  }

  // ---------------------------------------------------------------------
  // Defaulting the parsed insights response

  /** A value JSON.parse can return. */
  datatype Json =
    | JNull
    | JBool(b: bool)
    | JNum(n: int)
    | JStr(s: string)
    | JArr(items: seq<Json>)
    | JObj(members: seq<Member>)

  datatype Member = Member(name: string, value: Json)

  predicate JsonTruthy(j: Json)
  {
    match j
    case JNull => false
    case JBool(b) => b
    case JNum(n) => n != 0
    case JStr(s) => s != ""
    case _ => true
  }

  /** The member JSON.parse keeps for a name: the last one written. */
  function LastMember(ms: seq<Member>, name: string): (r: Option<Json>)
    ensures r.None? <==> forall i :: 0 <= i < |ms| ==> ms[i].name != name
  {
    if |ms| == 0 then None
    else if ms[|ms| - 1].name == name then Some(ms[|ms| - 1].value)
    else
      var r := LastMember(ms[..|ms| - 1], name);
      assert forall i :: 0 <= i < |ms| - 1 ==> ms[..|ms| - 1][i] == ms[i];
      r
  }

  /** A name's value is that of its last member: later members with other names do not matter. */
  lemma {:induction false} LastMemberAt(ms: seq<Member>, i: nat, name: string)
    requires i < |ms| && ms[i].name == name
    requires forall j :: i < j < |ms| ==> ms[j].name != name
    ensures LastMember(ms, name) == Some(ms[i].value)
  {
    if i < |ms| - 1 {
      var front := ms[..|ms| - 1];
      assert front[i] == ms[i];
      assert forall j :: i < j < |front| ==> front[j] == ms[j];
      LastMemberAt(front, i, name);
    }
  }

  /** `parsed.name` on a non-null value: only objects have these properties. */
  function Property(parsed: Json, name: string): Option<Json>
  {
    match parsed
    case JObj(ms) => LastMember(ms, name)
    case _ => None
  }

  const InsightKeys: seq<string> :=
    ["chart_insights", "monthly_trends", "top_merchants", "anomalies", "summary", "reports", "suggestions"]

  /** The empty container a missing insight defaults to: {} for summary, [] for the rest. */
  function EmptyValue(name: string): Json
  {
    if name == "summary" then JObj([]) else JArr([])
  }

  /** `parsed.name || <empty>`. */
  function Pick(parsed: Json, name: string): Json
  {
    match Property(parsed, name)
    case Some(v) => if JsonTruthy(v) then v else EmptyValue(name)
    case None => EmptyValue(name)
  }

  /** The all-empty object the `catch` branch returns. */
  function EmptyInsights(): Json
  {
    JObj(seq(|InsightKeys|, i requires 0 <= i < |InsightKeys| =>
      Member(InsightKeys[i], EmptyValue(InsightKeys[i]))))
  }

  /**
   * The insights object `getInsights` returns for an already-parsed
   * response: the seven keys in order, each `parsed.key || <empty>`.
   * None stands for a response JSON.parse rejected; a parsed `null` throws
   * on the first property access and lands in the same `catch`.
   */
  function DefaultInsights(parsed: Option<Json>): Json
  {
    if parsed.None? || parsed.value == JNull then EmptyInsights()
    else
      JObj(seq(|InsightKeys|, i requires 0 <= i < |InsightKeys| =>
        Member(InsightKeys[i], Pick(parsed.value, InsightKeys[i]))))
  }

  /**
   * The result always has the seven insight keys in order; each holds the
   * response's value when that is truthy, and the empty container for its
   * key when the value is absent or falsy or the response failed to parse.
   */
  lemma InsightsShape(parsed: Option<Json>)
    ensures DefaultInsights(parsed).JObj?
    ensures |DefaultInsights(parsed).members| == |InsightKeys|
    ensures forall i :: 0 <= i < |InsightKeys| ==>
      var m := DefaultInsights(parsed).members[i];
      var k := InsightKeys[i];
      m.name == k &&
      m.value == if parsed.Some? && parsed.value != JNull && Property(parsed.value, k).Some? &&
                    JsonTruthy(Property(parsed.value, k).value)
                 then Property(parsed.value, k).value else EmptyValue(k)
  {
  }

  lemma KeysDistinct()
    ensures forall i, j :: 0 <= i < j < |InsightKeys| ==> InsightKeys[i] != InsightKeys[j]
  {
    var ks := InsightKeys;
    assert ks[0][0] == 'c' && ks[1][0] == 'm' && ks[2][0] == 't' && ks[3][0] == 'a';
    assert ks[4][0] == 's' && ks[5][0] == 'r' && ks[6][0] == 's';
    assert ks[4][1] == 'u' && ks[6][1] == 'u' && ks[4][2] == 'm' && ks[6][2] == 'g';
  }

  /** A member list named by the seven insight keys, in order. */
  predicate NamedByKeys(ms: seq<Member>)
  {
    |ms| == |InsightKeys| && forall j :: 0 <= j < |ms| ==> ms[j].name == InsightKeys[j]
  }

  /** Reading a key back from such a list gives its member's value, when that is truthy. */
  lemma ReadBack(ms: seq<Member>, i: nat)
    requires NamedByKeys(ms) && i < |ms| && JsonTruthy(ms[i].value)
    ensures Property(JObj(ms), InsightKeys[i]) == Some(ms[i].value)
    ensures Pick(JObj(ms), InsightKeys[i]) == ms[i].value
  {
    KeysDistinct();
    LastMemberAt(ms, i, InsightKeys[i]);
  }

  /** Every insight key can be read back from the result, and its value is never falsy. */
  lemma InsightsComplete(parsed: Option<Json>, i: nat)
    requires i < |InsightKeys|
    ensures Property(DefaultInsights(parsed), InsightKeys[i]) == Some(DefaultInsights(parsed).members[i].value)
    ensures JsonTruthy(DefaultInsights(parsed).members[i].value)
  {
    InsightsShape(parsed);
    ReadBack(DefaultInsights(parsed).members, i);
  }

  /** Defaulting an already-defaulted object again changes nothing. */
  lemma InsightsIdempotent(parsed: Option<Json>)
    ensures DefaultInsights(Some(DefaultInsights(parsed))) == DefaultInsights(parsed)
  {
    var ms := DefaultInsights(parsed).members;
    InsightsShape(parsed);
    forall i | 0 <= i < |ms| ensures JsonTruthy(ms[i].value) {
      InsightsComplete(parsed, i);
    }
    var d := DefaultInsights(Some(JObj(ms))).members;
    forall i | 0 <= i < |ms| ensures d[i] == ms[i] {
      ReadBack(ms, i);
    }
    assert d == ms;
  }
}
