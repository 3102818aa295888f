/** `FileProcessor.process`: the `if`/`elif` chain of hard-coded question rules (A to I), each
    keyed on phrases of the lower-cased question and mostly on the record's `type`, and the
    placeholder answer given when the chosen rule produces nothing. */
module Rules {
  import opened Wrappers
  import opened PyStrings
  import opened Scratch
  import opened Records
  import Markdown
  import Replacement
  import Extraction

  /** `phrase in question.lower()`. */
  predicate Asks(q: string, phrase: string) {
    Contains(Lower(q), phrase)
  }

  /** The nine rules, named after what they compute. */
  datatype Rule =
    | UnzipAnswer   // A: answer column of a csv inside a zip
    | CsvAnswer     // B: answer column of a csv
    | Prettier      // C: sha256 of the prettier-formatted markdown
    | LineDiff      // D: differing lines of a.txt and b.txt
    | EncodingSum   // E: sum of values for three symbols across csv members
    | DivSum        // F: sum of data-value over div.foo
    | HiddenInput   // G: value of the first hidden input
    | GoldSales     // H: SQL total of Gold ticket sales
    | IitmReplace   // I: sha256 after replacing IITM

  /** The order of the `elif` chain. */
  const Chain: seq<Rule> := [UnzipAnswer, CsvAnswer, Prettier, LineDiff, EncodingSum, DivSum, HiddenInput, GoldSales, IitmReplace]

  /** The record type a rule's condition tests, if it tests one: rules F to I test the question
      only, and check the type inside their bodies. */
  function TestedKind(r: Rule): Option<Kind> {
    match r
    case UnzipAnswer => Some(Zip)
    case CsvAnswer => Some(Csv)
    case Prettier => Some(Markdown)
    case LineDiff => Some(Zip)
    case EncodingSum => Some(Zip)
    case _ => None
  }

  /** The condition of the rule's `if`/`elif` line: phrases of the lowered question and, for rules
      A to E, the record type. */
  predicate Triggers(r: Rule, q: string, info: FileInfo)
    ensures Triggers(r, q, info) && TestedKind(r).Some? ==> info.kind == TestedKind(r).value
  {
    match r
    case UnzipAnswer => Asks(q, "unzip") && Asks(q, "answer column") && info.kind == Zip
    case CsvAnswer => Asks(q, "answer column") && info.kind == Csv
    case Prettier => Asks(q, "prettier") && Asks(q, "sha256sum") && info.kind == Markdown
    case LineDiff => Asks(q, "how many lines are different") && info.kind == Zip
    case EncodingSum => Asks(q, "different encodings") && Asks(q, "sum") && info.kind == Zip
    case DivSum => Asks(q, "div") && Asks(q, "foo class") && Asks(q, "data-value")
    case HiddenInput => Asks(q, "hidden input") && Asks(q, "secret value")
    case GoldSales => Asks(q, "sql") && Asks(q, "gold") && Asks(q, "ticket")
    case IitmReplace => Asks(q, "replace") && Asks(q, "iitm") && Asks(q, "sha256sum")
  }

  /** Rules F to I hold or fail on the question alone, whatever the record. */
  lemma QuestionOnly(r: Rule, q: string, a: FileInfo, b: FileInfo)
    requires TestedKind(r).None?
    ensures Triggers(r, q, a) == Triggers(r, q, b)
  {
  }

  /** Position in `rules` of the first rule whose condition holds, or |rules|: with `elif`, only
      that rule's body runs. */
  function FirstTriggered(rules: seq<Rule>, q: string, info: FileInfo): (k: nat)
    ensures k <= |rules|
    ensures k < |rules| ==> Triggers(rules[k], q, info)
    ensures forall j :: 0 <= j < k ==> !Triggers(rules[j], q, info)
  {
    if rules == [] then 0
    else if Triggers(rules[0], q, info) then 0
    else 1 + FirstTriggered(rules[1..], q, info)
  }

  // ---------------------------------------------------------------------------------------------
  // Python's failures inside the bodies, as the messages `str(e)` would give

  /** `df['answer'].iloc[0]` on an empty frame. */
  const OutOfBounds := "single positional indexer is out-of-bounds"

  /** `df['answer']` when the frame has no such column. */
  const NoAnswerColumn := "'answer'"

  function NoAttribute(typeName: string, attr: string): string {
    "'" + typeName + "' object has no attribute '" + attr + "'"
  }

  /** `BeautifulSoup(None, 'html.parser')`. */
  const NoMarkup := "object of type 'NoneType' has no len()"

  /** The Python value stored under `data` is None. */
  predicate DataIsNone(d: Data) {
    d.NoData? || (d.Tree? && d.json.JNull?)
  }

  /** The Python type name of a `data` value that is not a DataFrame. */
  function TypeName(d: Data): string {
    match d
    case NoData => "NoneType"
    case Frame(_) => "DataFrame"
    case Decoded(_) => "str"
    case Tables(_) => "dict"
    case Tree(j) =>
      match j
      case JNull => "NoneType"
      case JBool(_) => "bool"
      case JNum(_) => "int"
      case JStr(_) => "str"
      case JArray(_) => "list"
      case JObject(_) => "dict"
  }

  // ---------------------------------------------------------------------------------------------
  // Rules A and B: the first row's `answer` value

  /** `str(df['answer'].iloc[0])`. */
  function FirstAnswer(t: Table): (r: Result<string>)
    ensures r.Ok? <==> "answer" in t.columns && |t.rows| > 0
    ensures r.Ok? ==> exists k :: 0 <= k < |t.columns| && t.columns[k] == "answer" && r.value == CellText(t, 0, k)
    ensures r.Err? ==> r.msg == (if "answer" in t.columns then OutOfBounds else NoAnswerColumn)
  {
    var k := ColumnIndex(t.columns, "answer");
    if k < 0 then Err(NoAnswerColumn)
    else if |t.rows| == 0 then Err(OutOfBounds)
    else Ok(CellText(t, 0, k))
  }

  /** `if data is not None and 'answer' in data.columns: return str(data['answer'].iloc[0])`,
      shared by rule B and by `RequestHandler.get_direct_answer`. There is no guard against an
      empty table. */
  function AnswerColumn(info: FileInfo): (r: Result<Option<string>>)
    ensures info.data.Frame? && "answer" in info.data.table.columns ==>
      r == (match FirstAnswer(info.data.table) case Ok(a) => Ok(Some(a)) case Err(e) => Err(e))
    ensures info.data.Frame? && "answer" !in info.data.table.columns ==> r == Ok(None)
    ensures DataIsNone(info.data) ==> r == Ok(None)
  {
    if DataIsNone(info.data) then Ok(None)
    else if !info.data.Frame? then Err(NoAttribute(TypeName(info.data), "columns"))
    else if "answer" !in info.data.table.columns then Ok(None)
    else match FirstAnswer(info.data.table)
      case Ok(a) => Ok(Some(a))
      case Err(e) => Err(e)
  }

  /** The members rule A stops at: a `.csv` name, a csv record whose `columns` list has `answer`,
      and a `data` value that is not None and not empty. */
  predicate AnswerCandidate(m: Member) {
    && EndsWith(m.name, ".csv") && m.info.kind == Csv && "answer" in m.info.columns.GetOr([])
    && !DataIsNone(m.info.data)
    && !(m.info.data.Frame? && |m.info.data.table.rows| == 0)
  }

  /** The loop of rule A over the archive's direct members. */
  function UnzipAnswerIn(ms: seq<Member>): Result<Option<string>> {
    if ms == [] then Ok(None)
    else if !AnswerCandidate(ms[0]) then UnzipAnswerIn(ms[1..])
    else if !ms[0].info.data.Frame? then Err(NoAttribute(TypeName(ms[0].info.data), "empty"))
    else match FirstAnswer(ms[0].info.data.table)
      case Ok(a) => Ok(Some(a))
      case Err(e) => Err(e)
  }

  // ---------------------------------------------------------------------------------------------
  // Rule D: lines that differ between a.txt and b.txt

  /** `extracted.get('content')` of the last direct member called `name` (a later one overwrites an
      earlier one), or None when there is no such member. */
  function ContentNamed(ms: seq<Member>, name: string): (c: Option<string>)
    ensures c.Some? ==> exists k :: 0 <= k < |ms| && ms[k].name == name && ms[k].info.content == c
    ensures (forall k :: 0 <= k < |ms| ==> ms[k].name != name) ==> c.None?
  {
    if ms == [] then None
    else if ms[|ms| - 1].name == name then ms[|ms| - 1].info.content
    else ContentNamed(ms[..|ms| - 1], name)
  }

  /** Python truthiness of an optional string: present and not empty. */
  predicate Truthy(c: Option<string>) {
    c.Some? && c.value != ""
  }

  /** `sum(1 for a, b in zip(xs, ys) if a != b)`. */
  function DiffCount(xs: seq<string>, ys: seq<string>): nat
    requires |xs| == |ys|
  {
    if xs == [] then 0 else (if xs[0] != ys[0] then 1 else 0) + DiffCount(xs[1..], ys[1..])
  }

  /** Rule D's body: an answer only when both files have non-empty content with as many lines. */
  function LineDiffIn(ms: seq<Member>): Option<string> {
    var a := ContentNamed(ms, "a.txt");
    var b := ContentNamed(ms, "b.txt");
    if Truthy(a) && Truthy(b) && |SplitLines(a.value)| == |SplitLines(b.value)| then
      Some(IntToString(DiffCount(SplitLines(a.value), SplitLines(b.value))))
    else None
  }

  // ---------------------------------------------------------------------------------------------
  // Rule E: values of three symbols summed over csv members

  const Symbols: seq<string> := ["\U{203a}", "\U{0153}", "\U{2014}"]

  /** `total_sum += <a sum of strings>`. */
  const NotAddable := "unsupported operand type(s) for +=: 'int' and 'str'"

  /** Sum of Result values; the left error wins, as the left operand is evaluated first. */
  function Add(a: Result<int>, b: Result<int>): (r: Result<int>)
    ensures r.Ok? <==> a.Ok? && b.Ok?
    ensures r.Ok? ==> r.value == a.value + b.value
    ensures r.Err? ==> r == (if a.Err? then a else b)
  {
    if a.Err? then a else if b.Err? then b else Ok(a.value + b.value)
  }

  /** A numeric cell's value in a pandas sum; NaN is skipped. */
  function CellNum(c: Cell): int {
    if c.Num? then c.n else 0
  }

  /** The rows' cells reach the two column positions. */
  predicate Reaches(rows: seq<seq<Cell>>, si: nat, vi: nat) {
    forall i :: 0 <= i < |rows| ==> si < |rows[i]| && vi < |rows[i]|
  }

  /** `df[df['symbol'] == sym]['value'].sum()`, over the numeric values. */
  function MatchSum(rows: seq<seq<Cell>>, si: nat, vi: nat, sym: string): int
    requires Reaches(rows, si, vi)
  {
    if rows == [] then 0
    else (if rows[0][si] == Str(sym) then CellNum(rows[0][vi]) else 0) + MatchSum(rows[1..], si, vi, sym)
  }

  /** Some row with symbol `sym` has a string value, which makes the sum a string. */
  predicate MatchBad(rows: seq<seq<Cell>>, si: nat, vi: nat, sym: string)
    requires Reaches(rows, si, vi)
  {
    exists i :: 0 <= i < |rows| && rows[i][si] == Str(sym) && rows[i][vi].Str?
  }

  function SymbolTotal(rows: seq<seq<Cell>>, si: nat, vi: nat, sym: string): Result<int>
    requires Reaches(rows, si, vi)
  {
    if MatchBad(rows, si, vi, sym) then Err(NotAddable) else Ok(MatchSum(rows, si, vi, sym))
  }

  /** The inner loop over the symbols, for one table. */
  function SymbolsTotal(rows: seq<seq<Cell>>, si: nat, vi: nat, syms: seq<string>): Result<int>
    requires Reaches(rows, si, vi)
  {
    if syms == [] then Ok(0)
    else Add(SymbolsTotal(rows, si, vi, syms[..|syms| - 1]), SymbolTotal(rows, si, vi, syms[|syms| - 1]))
  }

  /** One member's contribution: csv and text members only; a `data` of None is skipped, a `data`
      that is not a DataFrame (the str of a text member) has no `columns` and raises. */
  function MemberTotal(m: Member): Result<int> {
    var d := m.info.data;
    if m.info.kind != Csv && m.info.kind != Kind.Text then Ok(0)
    else if DataIsNone(d) then Ok(0)
    else if !d.Frame? then Err(NoAttribute(TypeName(d), "columns"))
    else if "symbol" !in d.table.columns || "value" !in d.table.columns then Ok(0)
    else
      var si := ColumnIndex(d.table.columns, "symbol");
      var vi := ColumnIndex(d.table.columns, "value");
      SymbolsTotal(d.table.rows, si, vi, Symbols)
  }

  /** The outer loop over the archive's direct members. */
  function EncodingTotal(ms: seq<Member>): Result<int> {
    if ms == [] then Ok(0) else Add(EncodingTotal(ms[..|ms| - 1]), MemberTotal(ms[|ms| - 1]))
  }

  // ---------------------------------------------------------------------------------------------
  // Rules F and G: the parsed markup

  /** The class selector `.cls`: the element's `class` attribute, split at whitespace, holds `cls`. */
  predicate HasClass(e: Element, cls: string) {
    "class" in e.attrs && cls in Words(e.attrs["class"])
  }

  /** `soup.select('div.foo')` keeps these elements, in document order. */
  predicate FooDiv(e: Element) {
    e.tag == "div" && HasClass(e, "foo")
  }

  /** `int(div.get('data-value', 0))`. */
  function DataValue(e: Element): Result<int> {
    if "data-value" !in e.attrs then Ok(0)
    else match ParseInt(e.attrs["data-value"])
      case Some(n) => Ok(n)
      case None => Err("invalid literal for int() with base 10: '" + e.attrs["data-value"] + "'")
  }

  /** What one element adds to the sum: its value if the selector keeps it, nothing otherwise. */
  function Counted(e: Element): Result<int> {
    if FooDiv(e) then DataValue(e) else Ok(0)
  }

  /** `sum(int(div.get('data-value', 0)) for div in soup.select('div.foo'))`. */
  function DivTotal(es: seq<Element>): (r: Result<int>)
    ensures r.Ok? <==> forall k :: 0 <= k < |es| && FooDiv(es[k]) ==> DataValue(es[k]).Ok?
  {
    if es == [] then Ok(0)
    else
      assert forall k :: 1 <= k < |es| ==> es[k] == es[1..][k - 1];
      Add(Counted(es[0]), DivTotal(es[1..]))
  }

  /** `soup.select('div.foo')`: the elements the selector keeps, in document order. */
  function Selected(es: seq<Element>): (ks: seq<Element>)
    ensures |ks| <= |es|
    ensures forall e :: e in ks <==> e in es && FooDiv(e)
  {
    if es == [] then []
    else (if FooDiv(es[0]) then [es[0]] else []) + Selected(es[1..])
  }

  /** The values of the kept elements, as the generator yields them; the first element whose
      `data-value` is not an integer raises, and nothing after it is read. */
  function Values(ks: seq<Element>): (r: Result<seq<int>>)
    ensures r.Ok? <==> forall k :: 0 <= k < |ks| ==> DataValue(ks[k]).Ok?
    ensures r.Ok? ==> |r.value| == |ks| && forall k :: 0 <= k < |ks| ==> r.value[k] == DataValue(ks[k]).value
    ensures r.Err? ==> exists k :: (0 <= k < |ks| && DataValue(ks[k]).Err?
      && (forall j :: 0 <= j < k ==> DataValue(ks[j]).Ok?) && r.msg == DataValue(ks[k]).msg)
  {
    if ks == [] then Ok([])
    else
      assert forall k :: 1 <= k < |ks| ==> ks[k] == ks[1..][k - 1];
      match DataValue(ks[0])
      case Err(e) => Err(e)
      case Ok(v) =>
        match Values(ks[1..])
        case Ok(vs) => Ok([v] + vs)
        case Err(e) =>
          var k :| 0 <= k < |ks[1..]| && DataValue(ks[1..][k]).Err?
            && (forall j :: 0 <= j < k ==> DataValue(ks[1..][j]).Ok?) && e == DataValue(ks[1..][k]).msg;
          assert DataValue(ks[k + 1]).Err? && forall j :: 0 <= j < k + 1 ==> DataValue(ks[j]).Ok?;
          Err(e)
  }

  function Sum(xs: seq<int>): int {
    if xs == [] then 0 else xs[0] + Sum(xs[1..])
  }

  /** `sum()` of the yielded values, or the exception that stopped the generator. */
  function SumOf(r: Result<seq<int>>): Result<int> {
    match r
    case Ok(vs) => Ok(Sum(vs))
    case Err(e) => Err(e)
  }

  /** Rule F's sum is the sum of the kept elements' values when every one of them is an integer,
      and otherwise the error of the first kept element, in document order, whose value is not. */
  lemma {:induction false} DivTotalIsSelectedSum(es: seq<Element>)
    ensures DivTotal(es) == SumOf(Values(Selected(es)))
  {
    if es != [] {
      var rest := es[1..];
      DivTotalIsSelectedSum(rest);
      assert DivTotal(es) == Add(Counted(es[0]), DivTotal(rest));
      if FooDiv(es[0]) {
        SelectedKeeps(es);
        ValuesCons(es[0], Selected(rest));
        AddCons(DataValue(es[0]), Values(Selected(rest)));
      } else {
        assert Selected(es) == Selected(rest);
        assert Counted(es[0]) == Ok(0);
      }
    }
  }

  lemma SelectedKeeps(es: seq<Element>)
    requires es != [] && FooDiv(es[0])
    ensures Selected(es) == [es[0]] + Selected(es[1..])
  {
  }

  lemma ValuesCons(e: Element, ks: seq<Element>)
    ensures Values([e] + ks) ==
      match DataValue(e)
      case Err(m) => Err(m)
      case Ok(v) => (match Values(ks) case Ok(vs) => Ok([v] + vs) case Err(m) => Err(m))
  {
    assert ([e] + ks)[0] == e && ([e] + ks)[1..] == ks;
  }

  /** Adding one value in front of the generator's values adds it to the sum. */
  lemma AddCons(a: Result<int>, r: Result<seq<int>>)
    ensures Add(a, SumOf(r)) ==
      SumOf(match a case Err(m) => Err(m) case Ok(v) => (match r case Ok(vs) => Ok([v] + vs) case Err(m) => Err(m)))
  {
    if a.Ok? && r.Ok? {
      assert ([a.value] + r.value)[1..] == r.value;
    }
  }

  predicate HiddenInputElement(e: Element) {
    e.tag == "input" && "type" in e.attrs && e.attrs["type"] == "hidden"
  }

  /** `soup.find('input', {'type': 'hidden'})`. */
  function FirstHidden(es: seq<Element>): (r: Option<Element>)
    ensures r.Some? ==> exists k :: (0 <= k < |es| && es[k] == r.value && HiddenInputElement(es[k])
      && forall j :: 0 <= j < k ==> !HiddenInputElement(es[j]))
    ensures r.None? ==> forall k :: 0 <= k < |es| ==> !HiddenInputElement(es[k])
  {
    if es == [] then None
    else if HiddenInputElement(es[0]) then Some(es[0])
    else
      var r := FirstHidden(es[1..]);
      assert forall k :: 1 <= k < |es| ==> es[k] == es[1..][k - 1];
      r
  }

  // ---------------------------------------------------------------------------------------------
  // Rule H: SELECT SUM(units * price) FROM tickets WHERE UPPER(TRIM(type)) = 'GOLD'

  /** SQLite's UPPER: ASCII letters only. */
  function Upper(s: string): (r: string)
    ensures |r| == |s|
  {
    if s == [] then "" else [if 'a' <= s[0] <= 'z' then (s[0] as int - 32) as char else s[0]] + Upper(s[1..])
  }

  /** SQLite's one-argument TRIM: spaces (and no other whitespace) removed from both ends. */
  function TrimSpaces(s: string): (r: string)
    ensures |r| <= |s|
    ensures r != [] ==> r[0] != ' ' && r[|r| - 1] != ' '
    decreases |s|
  {
    if s == [] then s
    else if s[0] == ' ' then TrimSpaces(s[1..])
    else if s[|s| - 1] == ' ' then TrimSpaces(s[..|s| - 1])
    else s
  }

  /** Only spaces lie outside `s[a..b]`. */
  predicate SpacesAround(s: string, a: nat, b: nat) {
    a <= b <= |s| && forall k :: 0 <= k < |s| && (k < a || b <= k) ==> s[k] == ' '
  }

  /** TRIM keeps a middle slice of its argument and removes only spaces around it. */
  lemma {:induction false} TrimSpacesSpan(s: string)
    ensures exists a: nat, b: nat :: SpacesAround(s, a, b) && TrimSpaces(s) == s[a..b]
    decreases |s|
  {
    if s == [] {
      assert SpacesAround(s, 0, 0) && TrimSpaces(s) == s[0..0];
    } else if s[0] == ' ' {
      TrimSpacesSpan(s[1..]);
      var a: nat, b: nat :| SpacesAround(s[1..], a, b) && TrimSpaces(s[1..]) == s[1..][a..b];
      SpanFront(s, a, b);
    } else if s[|s| - 1] == ' ' {
      TrimSpacesSpan(s[..|s| - 1]);
      var a: nat, b: nat :| SpacesAround(s[..|s| - 1], a, b) && TrimSpaces(s[..|s| - 1]) == s[..|s| - 1][a..b];
      SpanBack(s, a, b);
    } else {
      assert SpacesAround(s, 0, |s|) && TrimSpaces(s) == s[0..|s|];
    }
  }

  lemma SpanFront(s: string, a: nat, b: nat)
    requires s != [] && s[0] == ' '
    requires SpacesAround(s[1..], a, b) && TrimSpaces(s[1..]) == s[1..][a..b]
    ensures SpacesAround(s, a + 1, b + 1) && TrimSpaces(s) == s[a + 1..b + 1]
  {
    assert s[1..][a..b] == s[a + 1..b + 1];
    assert forall k :: 1 <= k < |s| ==> s[k] == s[1..][k - 1];
  }

  lemma SpanBack(s: string, a: nat, b: nat)
    requires s != [] && s[0] != ' ' && s[|s| - 1] == ' '
    requires SpacesAround(s[..|s| - 1], a, b) && TrimSpaces(s[..|s| - 1]) == s[..|s| - 1][a..b]
    ensures SpacesAround(s, a, b) && TrimSpaces(s) == s[a..b]
  {
    assert s[..|s| - 1][a..b] == s[a..b];
    assert forall k :: 0 <= k < |s| - 1 ==> s[k] == s[..|s| - 1][k];
  }

  function LowerAll(ss: seq<string>): (r: seq<string>)
    ensures |r| == |ss| && forall k :: 0 <= k < |ss| ==> r[k] == Lower(ss[k])
  {
    if ss == [] then [] else [Lower(ss[0])] + LowerAll(ss[1..])
  }

  /** The value in column `i` of a row; a short row reads as NULL. */
  function At(row: seq<SqlValue>, i: nat): SqlValue {
    if i < |row| then row[i] else SNull
  }

  /** The WHERE clause: TRIM and UPPER of the text form of `type` equal 'GOLD' (NULL never does). */
  predicate Gold(v: SqlValue) {
    match v
    case SText(t) => Upper(TrimSpaces(t)) == "GOLD"
    case SInt(i) => Upper(IntToString(i)) == "GOLD"
    case SNull => false
  }

  /** The whitespace SQLite skips before a number: space, tab, line feed, vertical tab, form
      feed and carriage return. */
  predicate SqlSpace(c: char) {
    c == ' ' || c == '\t' || c == '\n' || c == '\U{0B}' || c == '\U{0C}' || c == '\r'
  }

  /** `t` without its leading SQLite whitespace. */
  function SkipSqlSpace(t: string): (r: string)
    ensures |r| <= |t| && r == t[|t| - |r|..]
    ensures forall k :: 0 <= k < |t| - |r| ==> SqlSpace(t[k])
    ensures r != [] ==> !SqlSpace(r[0])
  {
    if t != [] && SqlSpace(t[0]) then
      var r := SkipSqlSpace(t[1..]);
      assert forall k :: 1 <= k < |t| ==> t[k] == t[1..][k - 1];
      r
    else t
  }

  /** The number of ASCII digits `t` starts with. */
  function DigitRun(t: string): (n: nat)
    ensures n <= |t| && (forall k :: 0 <= k < n ==> IsDigit(t[k])) && (n < |t| ==> !IsDigit(t[n]))
  {
    if t != [] && IsDigit(t[0]) then 1 + DigitRun(t[1..]) else 0
  }

  /** How SQLite reads a text in arithmetic: leading whitespace, an optional sign, and the longest
      run of ASCII digits after it; whatever follows is ignored, and no digits there read as 0. */
  function NumericPrefix(t: string): int {
    var u := SkipSqlSpace(t);
    var body := if u != [] && (u[0] == '-' || u[0] == '+') then u[1..] else u;
    var n: int := DigitsValue(body[..DigitRun(body)]);
    if u != [] && u[0] == '-' then -n else n
  }

  /** A value used in arithmetic: NULL stays NULL, a text value counts as its numeric prefix. */
  function Numeric(v: SqlValue): Option<int> {
    match v
    case SInt(i) => Some(i)
    case SText(t) => Some(NumericPrefix(t))
    case SNull => None
  }

  /** `units * price`, NULL when either is NULL. */
  function Product(row: seq<SqlValue>, ui: nat, pi: nat): Option<int> {
    match (Numeric(At(row, ui)), Numeric(At(row, pi)))
    case (Some(u), Some(p)) => Some(u * p)
    case _ => None
  }

  /** What each row gives the SUM: `units * price` on a row the WHERE clause keeps, NULL on any
      other row. */
  function RowValues(rows: seq<seq<SqlValue>>, ti: nat, ui: nat, pi: nat): seq<Option<int>> {
    seq(|rows|, i requires 0 <= i < |rows| => if Gold(At(rows[i], ti)) then Product(rows[i], ui, pi) else None)
  }

  /** SQL's SUM, one value at a time: a NULL is skipped, and with nothing added the SUM is NULL. */
  function SqlSum(vs: seq<Option<int>>): Option<int> {
    if vs == [] then None
    else
      match (vs[0], SqlSum(vs[1..]))
      case (Some(a), Some(b)) => Some(a + b)
      case (Some(a), None) => Some(a)
      case (None, rest) => rest
  }

  /** The non-NULL values, in order. */
  function Present(vs: seq<Option<int>>): (xs: seq<int>)
    ensures |xs| <= |vs|
  {
    if vs == [] then [] else (if vs[0].Some? then [vs[0].value] else []) + Present(vs[1..])
  }

  /** The SUM is NULL when no value is left to add, and otherwise the plain sum of the non-NULL
      values. */
  lemma {:induction false} SqlSumIsSum(vs: seq<Option<int>>)
    ensures SqlSum(vs) == if Present(vs) == [] then None else Some(Sum(Present(vs)))
  {
    if vs != [] {
      SqlSumIsSum(vs[1..]);
      var rest := Present(vs[1..]);
      if vs[0].Some? {
        assert Present(vs) == [vs[0].value] + rest;
        assert ([vs[0].value] + rest)[1..] == rest;
      } else {
        assert Present(vs) == rest;
      }
    }
  }

  /** The SUM is NULL exactly when every value is NULL. */
  lemma {:induction false} SqlSumNull(vs: seq<Option<int>>)
    ensures SqlSum(vs).None? <==> forall i :: 0 <= i < |vs| ==> vs[i].None?
  {
    if vs != [] {
      SqlSumNull(vs[1..]);
      assert forall i :: 1 <= i < |vs| ==> vs[i] == vs[1..][i - 1];
    }
  }

  /** The SUM over the Gold rows is NULL exactly when no Gold row has a non-NULL product. */
  lemma GoldRowsNull(rows: seq<seq<SqlValue>>, ti: nat, ui: nat, pi: nat)
    ensures SqlSum(RowValues(rows, ti, ui, pi)).None? <==>
      forall i :: 0 <= i < |rows| ==> !(Gold(At(rows[i], ti)) && Product(rows[i], ui, pi).Some?)
  {
    var vs := RowValues(rows, ti, ui, pi);
    SqlSumNull(vs);
    forall i | 0 <= i < |rows|
      ensures vs[i].None? <==> !(Gold(At(rows[i], ti)) && Product(rows[i], ui, pi).Some?)
    {
    }
  }

  /** What `str(result)` prints for the query on a relation that has the three columns: "None"
      when SUM has nothing to add, else the sum of the Gold rows' products. */
  function GoldAnswer(t: DbTable): string
    requires GoldColumns(t)
  {
    var cols := LowerAll(t.columns);
    var xs := Present(RowValues(t.rows, ColumnIndex(cols, "type"), ColumnIndex(cols, "units"), ColumnIndex(cols, "price")));
    if xs == [] then "None" else IntToString(Sum(xs))
  }

  /** The first table whose name is `tickets` ignoring ASCII case. */
  function Tickets(ts: seq<DbTable>): (r: Option<DbTable>)
    ensures r.Some? ==> Lower(r.value.name) == "tickets" && r.value in ts
    ensures r.Some? ==> exists k :: (0 <= k < |ts| && ts[k] == r.value
      && forall j :: 0 <= j < k ==> Lower(ts[j].name) != "tickets")
    ensures r.None? ==> forall k :: 0 <= k < |ts| ==> Lower(ts[k].name) != "tickets"
  {
    if ts == [] then None
    else if Lower(ts[0].name) == "tickets" then Some(ts[0])
    else
      var r := Tickets(ts[1..]);
      assert forall k :: 1 <= k < |ts| ==> ts[k] == ts[1..][k - 1];
      if r.Some? then
        var k :| 0 <= k < |ts[1..]| && ts[1..][k] == r.value
          && forall j :: 0 <= j < k ==> Lower(ts[1..][j].name) != "tickets";
        assert ts[k + 1] == r.value && forall j :: 0 <= j < k + 1 ==> Lower(ts[j].name) != "tickets";
        r
      else r
  }

  /** What the query's `FROM tickets` can name: the tables and the views. */
  function Relations(d: Database): seq<DbTable> {
    d.tables + d.views
  }

  const NoTicketsTable := "no such table: tickets"

  /** The relation has the three columns the query names, in any ASCII case. */
  predicate GoldColumns(t: DbTable) {
    var cols := LowerAll(t.columns);
    "units" in cols && "price" in cols && "type" in cols
  }

  /** Some row's trimmed, upper-cased `type` is GOLD and its `units * price` is not NULL. */
  predicate AnyGoldSale(t: DbTable)
    requires GoldColumns(t)
  {
    var cols := LowerAll(t.columns);
    var ti := ColumnIndex(cols, "type");
    var ui := ColumnIndex(cols, "units");
    var pi := ColumnIndex(cols, "price");
    exists i :: 0 <= i < |t.rows| && Gold(At(t.rows[i], ti)) && Product(t.rows[i], ui, pi).Some?
  }

  /** The query and `str(cursor.fetchone()[0])`: a file that is not a database, a missing
      `tickets` relation or a missing column raises; otherwise the answer is the text "None"
      exactly when no Gold row has a non-NULL product. */
  function GoldQuery(db: Result<Database>): (r: Result<string>)
    ensures db.Err? ==> r == Err(db.msg)
    ensures db.Ok? && Tickets(Relations(db.value)).None? ==> r == Err(NoTicketsTable)
    ensures r.Ok? <==> db.Ok? && Tickets(Relations(db.value)).Some? && GoldColumns(Tickets(Relations(db.value)).value)
    ensures r.Ok? ==> (r.value == "None" <==> !AnyGoldSale(Tickets(Relations(db.value)).value))
    ensures r.Ok? ==> r.value == GoldAnswer(Tickets(Relations(db.value)).value)
  {
    match db
    case Err(e) => Err(e)
    case Ok(d) =>
      match Tickets(Relations(d))
      case None => Err(NoTicketsTable)
      case Some(t) =>
        var cols := LowerAll(t.columns);
        if "units" !in cols then Err("no such column: units")
        else if "price" !in cols then Err("no such column: price")
        else if "type" !in cols then Err("no such column: type")
        else
          var ti := ColumnIndex(cols, "type");
          var ui := ColumnIndex(cols, "units");
          var pi := ColumnIndex(cols, "price");
          var vs := RowValues(t.rows, ti, ui, pi);
          var total := SqlSum(vs);
          GoldRowsNull(t.rows, ti, ui, pi);
          SqlSumIsSum(vs);
          if total.Some? then IntTextNotNone(total.value); Ok(IntToString(total.value)) else Ok("None")
  }

  lemma IntTextNotNone(n: int)
    ensures IntToString(n) != "None"
  {
    if n >= 0 {
      assert IntToString(n)[0] != 'N';
    } else {
      assert IntToString(n)[0] == '-';
    }
  }

  // ---------------------------------------------------------------------------------------------
  // The chain

  function Some'(r: Result<string>): Result<Option<string>> {
    match r
    case Ok(a) => Ok(Some(a))
    case Err(e) => Err(e)
  }

  /** The body of a rule whose condition held: Some(answer) when it returns, None when it leaves
      the chain without returning, Err when it raises. `db` is the uploaded file's bytes, which
      rule H opens again as a database. */
  function Body(env: Env, r: Rule, info: FileInfo, db: Bytes): (out: Result<Option<string>>)
    ensures (r == DivSum || r == HiddenInput) && info.kind != Kind.Text && info.kind != Html ==> out == Ok(None)
    ensures r == GoldSales && info.kind != Sqlite ==> out == Ok(None)
    ensures r == IitmReplace && info.kind != Zip ==> out == Ok(None)
    ensures r == LineDiff ==> out.Ok?
  {
    var members := info.extractedContent.GetOr([]);
    match r
    case UnzipAnswer => UnzipAnswerIn(members)
    case CsvAnswer => AnswerColumn(info)
    case Prettier =>
      if info.content.None? then Err(NoAttribute("NoneType", "splitlines"))
      else Ok(Some(env.sha256(Markdown.FormatDoc(info.content.value))))
    case LineDiff => Ok(LineDiffIn(members))
    case EncodingSum =>
      (match EncodingTotal(members)
       case Ok(t) => Ok(Some(IntToString(t)))
       case Err(e) => Err(e))
    case DivSum =>
      if info.kind != Kind.Text && info.kind != Html then Ok(None)
      else if info.content.None? then Err(NoMarkup)
      else
        (match DivTotal(env.parseHtml(info.content.value))
         case Ok(t) => Ok(Some(IntToString(t)))
         case Err(e) => Err(e))
    case HiddenInput =>
      if info.kind != Kind.Text && info.kind != Html then Ok(None)
      else if info.content.None? then Err(NoMarkup)
      else
        (match FirstHidden(env.parseHtml(info.content.value))
         case Some(e) => Ok(Some(if "value" in e.attrs then e.attrs["value"] else ""))
         case None => Ok(None))
    case GoldSales =>
      if info.kind != Sqlite then Ok(None) else Some'(GoldQuery(env.openDb(db)))
    case IitmReplace =>
      if info.kind != Zip then Ok(None) else Some'(Replacement.ReplacementDigest(env, info))
  }

  /** The answer when no rule answers. */
  function Placeholder(name: string): string {
    "Extracted file information from " + name
  }

  /** The chain on an extracted record: the first rule whose condition holds runs; if its body
      returns nothing, the answer is the placeholder and no later rule is tried. */
  function Decide(env: Env, q: string, name: string, info: FileInfo, db: Bytes): (out: Result<string>)
    ensures FirstTriggered(Chain, q, info) == |Chain| ==> out == Ok(Placeholder(name))
    ensures out.Err? ==>
      FirstTriggered(Chain, q, info) < |Chain| && Body(env, Chain[FirstTriggered(Chain, q, info)], info, db) == Err(out.msg)
    ensures out.Ok? && out.value != Placeholder(name) ==>
      FirstTriggered(Chain, q, info) < |Chain| && Body(env, Chain[FirstTriggered(Chain, q, info)], info, db) == Ok(Some(out.value))
  {
    var k := FirstTriggered(Chain, q, info);
    if k == |Chain| then Ok(Placeholder(name))
    else match Body(env, Chain[k], info, db)
      case Err(e) => Err(e)
      case Ok(None) => Ok(Placeholder(name))
      case Ok(Some(a)) => Ok(a)
  }

  /** The upload as written into the scratch directory. */
  function UploadNode(u: Upload): Node {
    match u.archive
    case Some(ms) => Archive(u.bytes, ms)
    case None => File(u.bytes)
  }

  /** `process(question, file)`: "No file provided" without a file (a Django file with an empty
      name is false); otherwise the upload is written to `<tmp>/<name>`, extracted, and the chain
      decides. An exception from extraction or from a rule escapes. */
  function Process(env: Env, tmp: string, q: string, file: Option<Upload>): (r: Result<Reply>)
    ensures file.None? || file.value.name == "" ==> r == Ok(Reply("No file provided"))
  {
    if file.None? || file.value.name == "" then Ok(Reply("No file provided"))
    else
      var u := file.value;
      var fs := Dir([Entry(u.name, UploadNode(u))]);
      assert WFEntries([Entry(u.name, UploadNode(u))]);
      match Extraction.Extract(env, tmp, fs, [u.name], Height(fs))
      case Err(e) => Err(e)
      case Ok((_, info)) =>
        match Decide(env, q, u.name, info, u.bytes)
        case Ok(a) => Ok(Reply(a))
        case Err(e) => Err(e)
  }

  // ---------------------------------------------------------------------------------------------
  // Rule E as the source runs it: `total_sum` grows member by member and symbol by symbol.

  lemma {:induction false} SymbolsErrPersists(rows: seq<seq<Cell>>, si: nat, vi: nat, syms: seq<string>, j: nat)
    requires Reaches(rows, si, vi) && j <= |syms| && SymbolsTotal(rows, si, vi, syms[..j]).Err?
    ensures SymbolsTotal(rows, si, vi, syms) == SymbolsTotal(rows, si, vi, syms[..j])
    decreases |syms| - j
  {
    if j < |syms| {
      assert syms[..j + 1][..j] == syms[..j];
      SymbolsErrPersists(rows, si, vi, syms, j + 1);
    } else {
      assert syms[..j] == syms;
    }
  }

  lemma {:induction false} EncodingErrPersists(ms: seq<Member>, i: nat)
    requires i <= |ms| && EncodingTotal(ms[..i]).Err?
    ensures EncodingTotal(ms) == EncodingTotal(ms[..i])
    decreases |ms| - i
  {
    if i < |ms| {
      assert ms[..i + 1][..i] == ms[..i];
      EncodingErrPersists(ms, i + 1);
    } else {
      assert ms[..i] == ms;
    }
  }

  /** The inner loop of rule E over the three symbols of one table, stopping at the first exception. */
  method TableSum(rows: seq<seq<Cell>>, si: nat, vi: nat) returns (r: Result<int>)
    requires Reaches(rows, si, vi)
    ensures r == SymbolsTotal(rows, si, vi, Symbols)
  {
    var total := 0;
    for j := 0 to |Symbols|
      invariant SymbolsTotal(rows, si, vi, Symbols[..j]) == Ok(total)
    {
      assert Symbols[..j + 1][..j] == Symbols[..j];
      var sum := SymbolTotal(rows, si, vi, Symbols[j]);
      if sum.Err? {
        SymbolsErrPersists(rows, si, vi, Symbols, j + 1);
        return sum;
      }
      total := total + sum.value;
    }
    assert Symbols[..|Symbols|] == Symbols;
    r := Ok(total);
  }

  lemma EncodingSnoc(ms: seq<Member>, i: nat)
    requires i < |ms|
    ensures EncodingTotal(ms[..i + 1]) == Add(EncodingTotal(ms[..i]), MemberTotal(ms[i]))
  {
    assert ms[..i + 1][..i] == ms[..i];
  }

  /** The body of rule E's outer loop for one member: csv and text records only, the `columns`
      access that raises on a decoded text, and the inner loop over the symbols. */
  method MemberSum(m: Member) returns (r: Result<int>)
    ensures r == MemberTotal(m)
  {
    var d := m.info.data;
    if (m.info.kind == Csv || m.info.kind == Kind.Text) && !DataIsNone(d) {
      if !d.Frame? {
        return Err(NoAttribute(TypeName(d), "columns"));
      }
      if "symbol" in d.table.columns && "value" in d.table.columns {
        var si := ColumnIndex(d.table.columns, "symbol");
        var vi := ColumnIndex(d.table.columns, "value");
        r := TableSum(d.table.rows, si, vi);
      } else {
        r := Ok(0);
      }
    } else {
      r := Ok(0);
    }
  }

  /** The outer loop of rule E over the direct members, stopping at the first exception. */
  method SumSymbolValues(ms: seq<Member>) returns (r: Result<int>)
    ensures r == EncodingTotal(ms)
  {
    var total := 0;
    for i := 0 to |ms|
      invariant EncodingTotal(ms[..i]) == Ok(total)
    {
      EncodingSnoc(ms, i);
      var sum := MemberSum(ms[i]);
      if sum.Err? {
        EncodingErrPersists(ms, i + 1);
        return sum;
      }
      total := total + sum.value;
    }
    assert ms[..|ms|] == ms;
    r := Ok(total);
  }

  // ---------------------------------------------------------------------------------------------
  // Rule E: the three per-symbol sums are one sum over the rows whose symbol is special

  predicate Special(c: Cell) {
    c.Str? && c.s in Symbols
  }

  /** Reference definition: the numeric values of the rows whose symbol is one of the three. */
  function SpecialSum(rows: seq<seq<Cell>>, si: nat, vi: nat): int
    requires Reaches(rows, si, vi)
  {
    if rows == [] then 0
    else (if Special(rows[0][si]) then CellNum(rows[0][vi]) else 0) + SpecialSum(rows[1..], si, vi)
  }

  /** A row matches at most one of the three symbols, so the three sums add up to the sum over
      the special rows. */
  lemma {:induction false} ThreeSymbolsPartition(rows: seq<seq<Cell>>, si: nat, vi: nat)
    requires Reaches(rows, si, vi)
    ensures MatchSum(rows, si, vi, Symbols[0]) + MatchSum(rows, si, vi, Symbols[1]) + MatchSum(rows, si, vi, Symbols[2])
            == SpecialSum(rows, si, vi)
  {
    if rows != [] {
      ThreeSymbolsPartition(rows[1..], si, vi);
    }
  }

  lemma SpecialBad(rows: seq<seq<Cell>>, si: nat, vi: nat)
    requires Reaches(rows, si, vi)
    ensures (MatchBad(rows, si, vi, Symbols[0]) || MatchBad(rows, si, vi, Symbols[1]) || MatchBad(rows, si, vi, Symbols[2]))
            <==> exists i :: 0 <= i < |rows| && Special(rows[i][si]) && rows[i][vi].Str?
  {
  }

  /** One table's contribution to rule E: an error when a row with a special symbol has a string
      value, otherwise the sum of the special rows' values. */
  lemma SymbolsTotalIsSpecialSum(rows: seq<seq<Cell>>, si: nat, vi: nat)
    requires Reaches(rows, si, vi)
    ensures SymbolsTotal(rows, si, vi, Symbols) ==
      if exists i :: 0 <= i < |rows| && Special(rows[i][si]) && rows[i][vi].Str? then Err(NotAddable)
      else Ok(SpecialSum(rows, si, vi))
  {
    var s0 := SymbolTotal(rows, si, vi, Symbols[0]);
    var s1 := SymbolTotal(rows, si, vi, Symbols[1]);
    var s2 := SymbolTotal(rows, si, vi, Symbols[2]);
    assert Symbols[..1][..0] == [] && Symbols[..1][0] == Symbols[0];
    assert SymbolsTotal(rows, si, vi, Symbols[..1]) == Add(Ok(0), s0);
    assert Symbols[..2][..1] == Symbols[..1] && Symbols[..2][1] == Symbols[1];
    assert SymbolsTotal(rows, si, vi, Symbols[..2]) == Add(Add(Ok(0), s0), s1);
    assert Symbols[..2] == Symbols[..|Symbols| - 1];
    assert SymbolsTotal(rows, si, vi, Symbols) == Add(Add(Add(Ok(0), s0), s1), s2);
    ThreeSymbolsPartition(rows, si, vi);
    SpecialBad(rows, si, vi);
  }

  /** A text member whose text was read (its `data` is a str) makes rule E raise, whatever the
      other members hold. */
  lemma {:induction false} TextMemberRaises(ms: seq<Member>, k: nat)
    requires k < |ms| && ms[k].info.kind == Kind.Text && ms[k].info.data.Decoded?
    ensures EncodingTotal(ms).Err?
  {
    var i := k + 1;
    assert ms[..i][..k] == ms[..k];
    assert MemberTotal(ms[k]) == Err(NoAttribute("str", "columns"));
    EncodingErrPersists(ms, i);
  }

  /** Over members with the shape extraction gives and no text member, rule E raises only for a
      string value in a row with a special symbol; otherwise it answers, "0" when no row matches. */
  lemma {:induction false} CsvMembersSum(ms: seq<Member>)
    requires forall k :: 0 <= k < |ms| ==> Shaped(ms[k].info) && ms[k].info.kind != Kind.Text
    ensures EncodingTotal(ms).Err? ==> EncodingTotal(ms) == Err(NotAddable)
  {
    if ms != [] {
      var init := ms[..|ms| - 1];
      var m := ms[|ms| - 1];
      assert forall k :: 0 <= k < |init| ==> init[k] == ms[k];
      CsvMembersSum(init);
      var d := m.info.data;
      if m.info.kind == Csv && d.Frame? && "symbol" in d.table.columns && "value" in d.table.columns {
        SymbolsTotalIsSpecialSum(d.table.rows, ColumnIndex(d.table.columns, "symbol"), ColumnIndex(d.table.columns, "value"));
      }
    }
  }

  // ---------------------------------------------------------------------------------------------
  // The chain: `elif` semantics

  /** Only the first rule whose condition holds runs; its outcome is the answer, with the
      placeholder standing in when the body returns nothing. */
  lemma ElifOnlyFirst(env: Env, q: string, name: string, info: FileInfo, db: Bytes, k: nat)
    requires k < |Chain| && Triggers(Chain[k], q, info)
    requires forall j :: 0 <= j < k ==> !Triggers(Chain[j], q, info)
    ensures Decide(env, q, name, info, db) ==
      match Body(env, Chain[k], info, db)
      case Err(e) => Err(e)
      case Ok(None) => Ok(Placeholder(name))
      case Ok(Some(a)) => Ok(a)
  {
    assert FirstTriggered(Chain, q, info) == k;
  }

  /** Rules F to I test the question alone: when one of them is the first to hold and the file is
      not of the kind it needs, the answer is the placeholder, and no later rule is tried. */
  lemma KeywordRuleWrongKind(env: Env, q: string, name: string, info: FileInfo, db: Bytes)
    requires FirstTriggered(Chain, q, info) < |Chain|
    requires var r := Chain[FirstTriggered(Chain, q, info)];
      || (r in {DivSum, HiddenInput} && info.kind != Kind.Text && info.kind != Html)
      || (r == GoldSales && info.kind != Sqlite)
      || (r == IitmReplace && info.kind != Zip)
    ensures Decide(env, q, name, info, db) == Ok(Placeholder(name))
  {
  }

  /** Once a rule's condition holds and its body returns nothing, the answer is the placeholder
      even if a later rule would have answered. */
  lemma NoLaterRule(env: Env, q: string, name: string, info: FileInfo, db: Bytes, k: nat, later: nat)
    requires k < later < |Chain| && Triggers(Chain[k], q, info) && Triggers(Chain[later], q, info)
    requires forall j :: 0 <= j < k ==> !Triggers(Chain[j], q, info)
    requires Body(env, Chain[k], info, db) == Ok(None)
    requires Body(env, Chain[later], info, db).Ok? && Body(env, Chain[later], info, db).value.Some?
    ensures Decide(env, q, name, info, db) == Ok(Placeholder(name))
  {
    ElifOnlyFirst(env, q, name, info, db, k);
  }

  // ---------------------------------------------------------------------------------------------
  // Rules A and B

  /** A member rule A can answer from: a `.csv` name, a csv record, and a table with an `answer`
      column and at least one row. */
  predicate Answerable(m: Member) {
    EndsWith(m.name, ".csv") && m.info.kind == Csv && m.info.data.Frame?
    && "answer" in m.info.data.table.columns && |m.info.data.table.rows| > 0
  }

  /** Over the members extraction produces, rule A never raises; it answers with the first row's
      `answer` value of the first answerable direct member, and with nothing when there is none.
      Members of nested archives are not direct members, so a csv inside a zip inside the zip is
      never found. */
  lemma {:induction false} UnzipAnswerFirst(ms: seq<Member>)
    requires forall k :: 0 <= k < |ms| ==> Shaped(ms[k].info)
    ensures UnzipAnswerIn(ms).Ok?
    ensures UnzipAnswerIn(ms).value.None? <==> forall k :: 0 <= k < |ms| ==> !Answerable(ms[k])
    ensures forall k :: 0 <= k < |ms| && Answerable(ms[k]) && (forall j :: 0 <= j < k ==> !Answerable(ms[j])) ==>
      UnzipAnswerIn(ms) == Ok(Some(FirstAnswer(ms[k].info.data.table).value))
    ensures (forall k :: 0 <= k < |ms| ==> ms[k].info.kind != Csv) ==> UnzipAnswerIn(ms) == Ok(None)
  {
    if ms != [] {
      assert forall k :: 1 <= k < |ms| ==> ms[k] == ms[1..][k - 1];
      CandidateAnswerable(ms[0]);
      if Answerable(ms[0]) {
        assert UnzipAnswerIn(ms) == Ok(Some(FirstAnswer(ms[0].info.data.table).value));
      } else {
        var rest := ms[1..];
        UnzipAnswerFirst(rest);
        assert UnzipAnswerIn(ms) == UnzipAnswerIn(rest);
        forall k | 0 <= k < |ms| && Answerable(ms[k]) && (forall j :: 0 <= j < k ==> !Answerable(ms[j]))
          ensures UnzipAnswerIn(ms) == Ok(Some(FirstAnswer(ms[k].info.data.table).value))
        {
          assert k > 0 && ms[k] == rest[k - 1];
          assert forall j :: 0 <= j < k - 1 ==> rest[j] == ms[j + 1];
        }
      }
    }
  }

  lemma CandidateAnswerable(m: Member)
    requires Shaped(m.info)
    ensures AnswerCandidate(m) <==> Answerable(m)
    ensures Answerable(m) ==> FirstAnswer(m.info.data.table).Ok?
  {
  }

  /** pandas reads a column of integers with an empty cell as float64, so the answer `5` above
      an empty cell prints as `5.0`. */
  lemma FloatAnswerExample(t: Table)
    requires t == Grid(["answer"], [[Num(5)], [Missing]])
    ensures FirstAnswer(t) == Ok("5.0")
  {
    assert Column(t, 0) == [Num(5), Missing];
    assert FloatColumn(Column(t, 0));
    assert ColumnIndex(t.columns, "answer") == 0;
    assert CellText(t, 0, 0) == IntToString(5) + ".0";
    assert IntToString(5) == "5";
    assert FirstAnswer(t) == Ok(CellText(t, 0, 0));
    assert "5" + ".0" == "5.0";
  }

  /** Rule B on a csv record with an `answer` column: the first row's value, or IndexError on an
      empty table, since nothing guards against one. */
  lemma CsvAnswerRule(env: Env, q: string, name: string, info: FileInfo, db: Bytes)
    requires Asks(q, "answer column") && info.kind == Csv
    requires info.data.Frame? && "answer" in info.data.table.columns
    ensures Decide(env, q, name, info, db) ==
      if info.data.table.rows == [] then Err(OutOfBounds) else Ok(FirstAnswer(info.data.table).value)
  {
    ElifOnlyFirst(env, q, name, info, db, 1);
  }

  lemma LowerFixed(s: string)
    requires forall k :: 0 <= k < |s| ==> !('A' <= s[k] <= 'Z')
    ensures Lower(s) == s
  {
  }

  /** The wording "'answer' column" does not contain the phrase rules A and B look for. */
  lemma QuotedColumnWording()
    ensures !Asks("'answer' column", "answer column")
  {
    LowerFixed("'answer' column");
    NoPhraseInQuoted();
  }

  lemma NoPhraseInQuoted()
    ensures !Contains("'answer' column", "answer column")
  {
    var s := "'answer' column";
    var sub := "answer column";
    assert |s| == 15 && |sub| == 13 && sub[0] == 'a' && sub[6] == ' ';
    assert s[0] == '\'' && s[7] == '\'' && s[2] == 'n';
    forall i | 0 <= i <= |s| - 13 ensures !OccursAt(s, sub, i) {
      if i == 1 {
        assert s[1..14][6] == s[7];
      } else if i == 0 {
        assert s[0..13][0] == s[0];
      } else {
        assert s[2..15][0] == s[2];
      }
    }
  }

  // ---------------------------------------------------------------------------------------------
  // Rule D

  /** No position differs exactly when the line lists are equal; at most every position differs. */
  lemma {:induction false} DiffCountZero(xs: seq<string>, ys: seq<string>)
    requires |xs| == |ys|
    ensures DiffCount(xs, ys) <= |xs|
    ensures DiffCount(xs, ys) == 0 <==> xs == ys
  {
    if xs != [] {
      DiffCountZero(xs[1..], ys[1..]);
      if xs[1..] == ys[1..] && xs[0] == ys[0] {
        assert xs == [xs[0]] + xs[1..] && ys == [ys[0]] + ys[1..];
      }
    }
  }

  lemma NamedPair(ia: FileInfo, ib: FileInfo)
    ensures ContentNamed([Member("a.txt", ia), Member("b.txt", ib)], "a.txt") == ia.content
    ensures ContentNamed([Member("a.txt", ia), Member("b.txt", ib)], "b.txt") == ib.content
  {
    var ms := [Member("a.txt", ia), Member("b.txt", ib)];
    assert ms[..1] == [Member("a.txt", ia)];
    assert "b.txt" != "a.txt" by { assert "b.txt"[0] != "a.txt"[0]; }
  }

  /** With a.txt and b.txt holding the lines `xs` and `ys` joined by newlines, rule D answers with
      the number of positions at which they differ when the line counts agree ("0" exactly when the
      files are equal), and gives no answer when they do not. */
  lemma LineDiffLines(ia: FileInfo, ib: FileInfo, xs: seq<string>, ys: seq<string>)
    requires xs != [] && forall j :: 0 <= j < |xs| ==> NoBreaks(xs[j])
    requires ys != [] && forall j :: 0 <= j < |ys| ==> NoBreaks(ys[j])
    requires xs[|xs| - 1] != "" && ys[|ys| - 1] != ""
    requires ia.content == Some(Join(xs, "\n")) && ib.content == Some(Join(ys, "\n"))
    ensures |xs| != |ys| ==> LineDiffIn([Member("a.txt", ia), Member("b.txt", ib)]) == None
    ensures |xs| == |ys| ==> LineDiffIn([Member("a.txt", ia), Member("b.txt", ib)]) == Some(IntToString(DiffCount(xs, ys)))
    ensures |xs| == |ys| ==> (LineDiffIn([Member("a.txt", ia), Member("b.txt", ib)]) == Some("0") <==> xs == ys)
  {
    NamedPair(ia, ib);
    SplitLinesJoin(xs);
    SplitLinesJoin(ys);
    if |xs| == |ys| {
      DiffCountZero(xs, ys);
      assert IntToString(0) == "0";
      if DiffCount(xs, ys) != 0 {
        assert IntToString(DiffCount(xs, ys)) != "0" by { NonZeroText(DiffCount(xs, ys)); }
      }
    }
  }

  lemma Join3(a: string, b: string, c: string, sep: string)
    ensures Join([a, b, c], sep) == a + sep + b + sep + c
  {
    assert [a, b, c][1..] == [b, c] && [b, c][1..] == [c];
    assert Join([b, c], sep) == b + sep + c;
    assert a + sep + (b + sep + c) == a + sep + b + sep + c;
  }

  lemma XYZ()
    ensures Join(["x", "y", "z"], "\n") == "x\ny\nz"
    ensures Join(["x", "Y", "z"], "\n") == "x\nY\nz"
    ensures DiffCount(["x", "y", "z"], ["x", "Y", "z"]) == 1
  {
    Join3("x", "y", "z", "\n");
    Join3("x", "Y", "z", "\n");
    assert ["x", "y", "z"][1..] == ["y", "z"] && ["y", "z"][1..] == ["z"];
    assert ["x", "Y", "z"][1..] == ["Y", "z"] && ["Y", "z"][1..] == ["z"];
  }

  /** a.txt = "x\ny\nz" against b.txt = "x\nY\nz": one line differs. */
  lemma LineDiffExample(ia: FileInfo, ib: FileInfo)
    requires ia.content == Some("x\ny\nz") && ib.content == Some("x\nY\nz")
    ensures LineDiffIn([Member("a.txt", ia), Member("b.txt", ib)]) == Some("1")
  {
    XYZ();
    var xs, ys := ["x", "y", "z"], ["x", "Y", "z"];
    assert NoBreaks("x") && NoBreaks("y") && NoBreaks("Y") && NoBreaks("z");
    assert forall j :: 0 <= j < |xs| ==> NoBreaks(xs[j]);
    assert forall j :: 0 <= j < |ys| ==> NoBreaks(ys[j]);
    LineDiffLines(ia, ib, xs, ys);
    OneText();
  }

  lemma OneText()
    ensures IntToString(1) == "1"
  {
    assert DigitChar(1) == '1';
    assert NatToString(1) == [DigitChar(1)];
  }

  lemma {:induction false} NonZeroText(n: nat)
    requires n != 0
    ensures NatToString(n) != "0"
  {
    if n >= 10 {
      assert |NatToString(n)| >= 2 by { assert NatToString(n) == NatToString(n / 10) + [DigitChar(n % 10)]; }
    } else {
      assert NatToString(n) == [DigitChar(n)];
      assert DigitChar(n) != '0';
    }
  }

  // ---------------------------------------------------------------------------------------------
  // Rule F

  lemma WordsNil()
    ensures Words([]) == []
  {
    assert LeadingSpaces([]) == 0;
  }

  /** A run without whitespace is one word. */
  lemma WordsOne(w: string)
    requires w != [] && forall k :: 0 <= k < |w| ==> !IsSpace(w[k])
    ensures Words(w) == [w]
  {
    assert LeadingSpaces(w) == 0;
    assert w[0..] == w;
    var n := WordEnd(w);
    assert n == |w|;
    assert w[..n] == w;
    assert w[n..] == [];
    WordsNil();
  }

  /** Two runs without whitespace, separated by a space, are two words. */
  lemma WordsTwo(a: string, b: string)
    requires a != [] && forall k :: 0 <= k < |a| ==> !IsSpace(a[k])
    requires b != [] && forall k :: 0 <= k < |b| ==> !IsSpace(b[k])
    ensures Words(a + " " + b) == [a, b]
  {
    var s := a + " " + b;
    assert s[0] == a[0];
    assert LeadingSpaces(s) == 0;
    assert s[0..] == s;
    assert forall k :: 0 <= k < |a| ==> s[k] == a[k];
    assert IsSpace(s[|a|]);
    var n := WordEnd(s);
    assert n == |a|;
    assert s[..n] == a;
    var t := s[n..];
    assert t[0] == ' ' && t[1..] == b;
    assert LeadingSpaces(t) == 1 by {
      assert LeadingSpaces(t[1..]) == 0;
    }
    WordsOne(b);
    assert Words(t) == Words(b) by {
      assert t[LeadingSpaces(t)..] == b;
      assert b[LeadingSpaces(b)..] == b;
    }
  }

  lemma ParseDigit(d: char)
    requires '0' <= d <= '9'
    ensures ParseInt([d]) == Some(d as int - '0' as int)
  {
    var s := [d];
    assert !IsSpace(d);
    assert LeadingSpaces(s) == 0;
    assert s[0..] == s;
    assert TrailingSpaces(s) == 0;
    assert s[..1] == s;
    assert Strip(s) == s;
    assert DigitPart(s);
    assert s[..|s| - 1] == [];
    assert DigitsValue(s) == d as int - '0' as int;
  }

  lemma FirstDiv()
    ensures FooDiv(Element("div", map["class" := "foo", "data-value" := "3"]))
    ensures DataValue(Element("div", map["class" := "foo", "data-value" := "3"])) == Ok(3)
  {
    assert "class" != "data-value" by { assert |"class"| != |"data-value"|; }
    WordsOne("foo");
    ParseDigit('3');
  }

  lemma SecondDiv()
    ensures FooDiv(Element("div", map["class" := "foo bar", "data-value" := "5"]))
    ensures DataValue(Element("div", map["class" := "foo bar", "data-value" := "5"])) == Ok(5)
  {
    assert "class" != "data-value" by { assert |"class"| != |"data-value"|; }
    FooBar("foo bar", "foo", "bar");
    ParseDigit('5');
  }

  lemma FooBar(s: string, foo: string, bar: string)
    requires s == "foo bar" && foo == "foo" && bar == "bar"
    ensures Words(s) == [foo, bar]
  {
    NoSpaceIn(foo);
    NoSpaceIn(bar);
    assert s == foo + " " + bar;
    WordsTwo(foo, bar);
  }

  lemma NoSpaceIn(w: string)
    requires w == "foo" || w == "bar"
    ensures w != [] && forall k :: 0 <= k < |w| ==> !IsSpace(w[k])
  {
    forall k | 0 <= k < |w| ensures !IsSpace(w[k]) {
      assert 'a' <= w[k] <= 'z' by {
        if k == 0 {} else if k == 1 {} else {}
      }
    }
  }

  lemma ThirdDiv()
    ensures !FooDiv(Element("div", map["data-value" := "9"]))
  {
    assert "class" != "data-value" by { assert |"class"| != |"data-value"|; }
  }

  /** Only the `div.foo` elements add their value, in document order. */
  lemma DivTotalThree(e1: Element, e2: Element, e3: Element, x: int, y: int)
    requires Counted(e1) == Ok(x) && Counted(e2) == Ok(y) && Counted(e3) == Ok(0)
    ensures DivTotal([e1, e2, e3]) == Ok(x + y)
  {
    DivTotalOfThree(e1, e2, e3);
    AddThree(Counted(e1), Counted(e2), Counted(e3), x, y);
  }

  lemma AddThree(a: Result<int>, b: Result<int>, c: Result<int>, x: int, y: int)
    requires a == Ok(x) && b == Ok(y) && c == Ok(0)
    ensures Add(a, Add(b, Add(c, Ok(0)))) == Ok(x + y)
  {
  }

  lemma DivTotalOfThree(e1: Element, e2: Element, e3: Element)
    ensures DivTotal([e1, e2, e3]) == Add(Counted(e1), Add(Counted(e2), Add(Counted(e3), Ok(0))))
  {
    var none: seq<Element> := [];
    DivTotalCons(e3, none);
    assert [e3] + none == [e3];
    DivTotalCons(e2, [e3]);
    assert [e2] + [e3] == [e2, e3];
    DivTotalCons(e1, [e2, e3]);
    assert [e1] + [e2, e3] == [e1, e2, e3];
  }

  lemma DivTotalCons(e: Element, es: seq<Element>)
    ensures DivTotal([e] + es) == Add(Counted(e), DivTotal(es))
  {
    assert ([e] + es)[1..] == es;
  }

  /** The class selector matches "foo" inside "foo bar" and skips a div without the class:
      data-values 3 and 5 count, 9 does not. */
  lemma DivSumExample()
    ensures DivTotal([
      Element("div", map["class" := "foo", "data-value" := "3"]),
      Element("div", map["class" := "foo bar", "data-value" := "5"]),
      Element("div", map["data-value" := "9"])]) == Ok(8)
  {
    FirstDiv();
    SecondDiv();
    ThirdDiv();
    DivTotalThree(Element("div", map["class" := "foo", "data-value" := "3"]),
      Element("div", map["class" := "foo bar", "data-value" := "5"]),
      Element("div", map["data-value" := "9"]), 3, 5);
  }

  // ---------------------------------------------------------------------------------------------
  // Rule H

  /** Gold rows 2 x 3 and 4 x 5 answer "26": a Silver row and a Gold row whose price is NULL add
      nothing, and `gold` in lower case counts. */
  lemma GoldSumExample(t: DbTable, gold: string, lower: string, silver: string)
    requires gold == "GOLD" && lower == "gold" && silver == "Silver"
    requires t.name == "tickets" && t.columns == ["type", "units", "price"]
    requires t.rows == [[SText(gold), SInt(2), SInt(3)], [SText(silver), SInt(10), SInt(10)],
                        [SText(lower), SInt(4), SInt(5)], [SText(gold), SInt(7), SNull]]
    ensures GoldQuery(Ok(Database([t], []))) == Ok("26")
  {
    TicketsQuery(t);
    ExampleProducts(t.rows, gold, lower, silver);
    TwentySix(Present(RowValues(t.rows, 0, 1, 2)));
  }

  /** A database whose one table is `tickets(type, units, price)` answers the Gold total. */
  lemma TicketsQuery(t: DbTable)
    requires t.name == "tickets" && t.columns == ["type", "units", "price"]
    ensures GoldColumns(t)
    ensures GoldQuery(Ok(Database([t], []))) == Ok(GoldAnswer(t))
    ensures var xs := Present(RowValues(t.rows, 0, 1, 2));
      GoldAnswer(t) == if xs == [] then "None" else IntToString(Sum(xs))
  {
    LowerFixed(t.name);
    TicketColumns(t.columns);
    assert Relations(Database([t], [])) == [t];
    assert Tickets([t]) == Some(t);
    TicketsAnswer(t);
  }

  lemma TicketsAnswer(t: DbTable)
    requires t.columns == ["type", "units", "price"]
    ensures GoldColumns(t)
    ensures var xs := Present(RowValues(t.rows, 0, 1, 2));
      GoldAnswer(t) == if xs == [] then "None" else IntToString(Sum(xs))
  {
    TicketColumns(t.columns);
  }

  lemma TwentySix(xs: seq<int>)
    requires xs == [6, 20]
    ensures xs != [] && IntToString(Sum(xs)) == "26"
  {
    assert Sum(xs) == 26 by {
      assert xs[1..] == [20];
      assert [20][1..] == [];
    }
    assert IntToString(26) == "26" by {
      assert NatToString(26) == NatToString(2) + [DigitChar(6)];
    }
  }

  lemma ExampleProducts(rs: seq<seq<SqlValue>>, gold: string, lower: string, silver: string)
    requires gold == "GOLD" && lower == "gold" && silver == "Silver"
    requires rs == [[SText(gold), SInt(2), SInt(3)], [SText(silver), SInt(10), SInt(10)],
                    [SText(lower), SInt(4), SInt(5)], [SText(gold), SInt(7), SNull]]
    ensures Present(RowValues(rs, 0, 1, 2)) == [6, 20]
  {
    ExampleRowValues(rs, gold, lower, silver);
    PresentExample(RowValues(rs, 0, 1, 2));
  }

  lemma ExampleRowValues(rs: seq<seq<SqlValue>>, gold: string, lower: string, silver: string)
    requires gold == "GOLD" && lower == "gold" && silver == "Silver"
    requires rs == [[SText(gold), SInt(2), SInt(3)], [SText(silver), SInt(10), SInt(10)],
                    [SText(lower), SInt(4), SInt(5)], [SText(gold), SInt(7), SNull]]
    ensures RowValues(rs, 0, 1, 2) == [Some(6), None, Some(20), None]
  {
    GoldWord(gold, "GOLD");
    GoldWord(lower, "GOLD");
    SilverWord(silver);
    var vs := RowValues(rs, 0, 1, 2);
    assert vs[0] == Some(6) && vs[1] == None && vs[2] == Some(20) && vs[3] == None;
  }

  lemma PresentExample(vs: seq<Option<int>>)
    requires vs == [Some(6), None, Some(20), None]
    ensures Present(vs) == [6, 20]
  {
    assert vs[1..][1..][1..][1..] == [];
    assert Present(vs[1..][1..][1..]) == [];
    assert Present(vs[1..][1..]) == [20];
    assert Present(vs[1..]) == [20];
  }

  /** A `type` text with no space at either end whose upper case is GOLD. */
  lemma GoldWord(w: string, u: string)
    requires w in {"Gold", "gold", "GOLD"} && u == "GOLD"
    ensures Gold(SText(w))
  {
    assert w[0] != ' ' && w[|w| - 1] != ' ';
    assert TrimSpaces(w) == w;
    assert Upper(w) == u;
  }

  lemma SilverWord(w: string)
    requires w == "Silver"
    ensures !Gold(SText(w))
  {
    assert w[0] != ' ' && w[|w| - 1] != ' ';
    assert TrimSpaces(w) == w;
    assert |Upper(w)| == 6;
  }

  /** A text that starts with an integer's decimal form, followed by nothing or by a non-digit,
      reads as that integer. */
  lemma NumericPrefixOfInt(i: int, rest: string)
    requires rest == [] || !IsDigit(rest[0])
    ensures NumericPrefix(IntToString(i) + rest) == i
  {
    var n: nat := if i < 0 then -i else i;
    var d := NatToString(n);
    DigitsOfNat(n);
    DigitRunAppend(d, rest);
    assert (d + rest)[..|d|] == d;
    if i < 0 {
      assert IntToString(i) + rest == "-" + (d + rest);
      SignedPrefix(d + rest);
    } else {
      UnsignedPrefix(d + rest);
    }
  }

  lemma UnsignedPrefix(body: string)
    requires body != [] && IsDigit(body[0])
    ensures NumericPrefix(body) == DigitsValue(body[..DigitRun(body)])
  {
    assert SkipSqlSpace(body) == body;
  }

  lemma SignedPrefix(body: string)
    requires body != [] && IsDigit(body[0])
    ensures NumericPrefix("-" + body) == -(DigitsValue(body[..DigitRun(body)]) as int)
  {
    var s := "-" + body;
    assert SkipSqlSpace(s) == s;
    assert s[0] == '-' && s[1..] == body;
  }

  /** The decimal form of a natural number reads back as that number. */
  lemma {:induction false} DigitsOfNat(n: nat)
    ensures DigitsValue(NatToString(n)) == n
  {
    var s := NatToString(n);
    if n < 10 {
      DigitCharValue(n);
      assert s[..|s| - 1] == [];
    } else {
      DigitsOfNat(n / 10);
      DigitCharValue(n % 10);
      assert s[..|s| - 1] == NatToString(n / 10);
    }
  }

  lemma DigitCharValue(d: nat)
    requires d < 10
    ensures DigitChar(d) as int - '0' as int == d && IsDigit(DigitChar(d))
  {
  }

  lemma {:induction false} DigitRunAppend(d: string, rest: string)
    requires forall k :: 0 <= k < |d| ==> IsDigit(d[k])
    requires rest == [] || !IsDigit(rest[0])
    ensures DigitRun(d + rest) == |d|
  {
    if d != [] {
      assert (d + rest)[0] == d[0] && (d + rest)[1..] == d[1..] + rest;
      DigitRunAppend(d[1..], rest);
    } else {
      assert d + rest == rest;
    }
  }

  /** SQLite reads only a numeric prefix: `1_000` is 1 (an underscore ends the number), `12abc` is
      12, and a text starting with a no-break space reads as 0. */
  lemma SqliteTextExample()
    ensures Numeric(SText("1_000")) == Some(1)
    ensures Numeric(SText("12abc")) == Some(12)
    ensures Numeric(SText("\U{A0}5")) == Some(0)
  {
    UnderscoreText("1_000");
    TrailingText("12abc");
    NoBreakText("\U{A0}5");
  }

  lemma UnderscoreText(s: string)
    requires s == "1_000"
    ensures NumericPrefix(s) == 1
  {
    assert !SqlSpace(s[0]) && IsDigit(s[0]) && !IsDigit(s[1]);
    assert SkipSqlSpace(s) == s;
    assert DigitRun(s[1..]) == 0;
    assert DigitRun(s) == 1;
    assert s[..1] == [s[0]];
    assert DigitsValue(s[..1]) == 1 by { assert s[..1][..0] == []; }
  }

  lemma TrailingText(s: string)
    requires s == "12abc"
    ensures NumericPrefix(s) == 12
  {
    assert !SqlSpace(s[0]) && IsDigit(s[0]) && IsDigit(s[1]) && !IsDigit(s[2]);
    assert SkipSqlSpace(s) == s;
    assert DigitRun(s[1..][1..]) == 0;
    assert DigitRun(s[1..]) == 1;
    assert DigitRun(s) == 2;
    var t := s[..2];
    assert t[1] == '2' && t[..1] == [s[0]];
    assert DigitsValue(t[..1]) == 1 by {
      assert t[..1][..0] == [];
    }
  }

  lemma NoBreakText(s: string)
    requires s == "\U{A0}5"
    ensures NumericPrefix(s) == 0
  {
    assert !SqlSpace(s[0]) && !IsDigit(s[0]);
    assert SkipSqlSpace(s) == s;
    assert DigitRun(s) == 0;
  }

  /** With a tickets table but no Gold row, the answer is the text "None". */
  lemma NoGoldAnswersNone(t: DbTable)
    requires Lower(t.name) == "tickets" && t.columns == ["type", "units", "price"]
    requires forall i :: 0 <= i < |t.rows| ==> !Gold(At(t.rows[i], 0))
    ensures GoldQuery(Ok(Database([t], []))) == Ok("None")
  {
    TicketColumns(t.columns);
    assert Relations(Database([t], [])) == [t];
    assert Tickets([t]) == Some(t);
    GoldRowsNull(t.rows, 0, 1, 2);
  }

  /** Rule H opens the file again and runs its own query. When extraction recorded an error
      because a table name does not parse unquoted, the record still has type sqlite, and rule H
      answers with the query's result all the same. */
  lemma RuleHIgnoresIntrospection(env: Env, base: FileInfo, b: Bytes)
    requires base.kind == Sqlite && base.error.None? && env.openDb(b).Ok?
    ensures var info := Extraction.SqliteInfo(env, base, Ok(b));
      && info.kind == Sqlite
      && (info.error.Some? <==>
            exists k :: 0 <= k < |env.openDb(b).value.tables| && !Extraction.BareName(env.openDb(b).value.tables[k].name))
      && Body(env, GoldSales, info, b) == Body(env, GoldSales, base, b)
  {
    var info := Extraction.SqliteInfo(env, base, Ok(b));
    var ts := env.openDb(b).value.tables;
    match Extraction.Introspect(ts)
    case Ok(s) =>
      assert info == base.(data := Tables(s), content := Some(env.reprTables(s)));
    case Err(e) =>
      assert info == base.(error := Some(e));
    GoldBody(env, info, base, b);
  }

  /** Rule H's body depends on the record's type only. */
  lemma GoldBody(env: Env, info: FileInfo, other: FileInfo, b: Bytes)
    requires info.kind == Sqlite && other.kind == Sqlite
    ensures Body(env, GoldSales, info, b) == Body(env, GoldSales, other, b)
  {
  }

  /** `FROM tickets` also reads a view: when no table has that name, a view named `tickets` is
      what the query reads, though extraction never lists it. */
  lemma ViewTickets(d: Database, v: DbTable)
    requires forall k :: 0 <= k < |d.tables| ==> Lower(d.tables[k].name) != "tickets"
    requires d.views == [v] && Lower(v.name) == "tickets"
    ensures Tickets(Relations(d)) == Some(v)
  {
    TicketsAfter(d.tables, [v]);
  }

  lemma {:induction false} TicketsAfter(ts: seq<DbTable>, vs: seq<DbTable>)
    requires forall k :: 0 <= k < |ts| ==> Lower(ts[k].name) != "tickets"
    ensures Tickets(ts + vs) == Tickets(vs)
  {
    if ts != [] {
      assert (ts + vs)[0] == ts[0] && (ts + vs)[1..] == ts[1..] + vs;
      assert Lower(ts[0].name) != "tickets";
      TicketsAfter(ts[1..], vs);
      assert Tickets(ts + vs) == Tickets(ts[1..] + vs);
    } else {
      assert ts + vs == vs;
    }
  }

  lemma TicketColumns(cols: seq<string>)
    requires cols == ["type", "units", "price"]
    ensures LowerAll(cols) == cols && "type" in cols && "units" in cols && "price" in cols
    ensures ColumnIndex(cols, "type") == 0 && ColumnIndex(cols, "units") == 1 && ColumnIndex(cols, "price") == 2
  {
    LowerFixed(cols[0]);
    LowerFixed(cols[1]);
    LowerFixed(cols[2]);
    assert cols[0] != cols[1] && cols[0] != cols[2] && cols[1] != cols[2] by {
      assert cols[0][0] == 't' && cols[1][0] == 'u' && cols[2][0] == 'p';
    }
  }

  /** TRIM removes spaces only: "  gold " is a Gold ticket, a tab-indented "GOLD" is not. */
  lemma GoldTrimExample()
    ensures Gold(SText("  gold ")) && !Gold(SText("\tGOLD"))
  {
    SpacedGold("  gold ");
    TabbedGold("\tGOLD");
  }

  lemma SpacedGold(s: string)
    requires s == "  gold "
    ensures Gold(SText(s))
  {
    var a := s[1..];
    var b := a[1..];
    var c := b[..|b| - 1];
    assert s[0] == ' ' && TrimSpaces(s) == TrimSpaces(a);
    assert a[0] == ' ' && TrimSpaces(a) == TrimSpaces(b);
    assert b[0] == 'g' && b[|b| - 1] == ' ' && TrimSpaces(b) == TrimSpaces(c);
    assert c == "gold";
    assert c[0] == 'g' && c[|c| - 1] == 'd' && TrimSpaces(c) == c;
    UpperGold(c);
  }

  lemma UpperGold(c: string)
    requires c == "gold"
    ensures Upper(c) == "GOLD"
  {
    assert Upper("gold") == "GOLD";
  }

  lemma TabbedGold(s: string)
    requires s == "\tGOLD"
    ensures !Gold(SText(s))
  {
    assert s[0] == '\t' && s[|s| - 1] == 'D';
    assert TrimSpaces(s) == s;
    assert Upper(s)[0] == '\t';
  }
}
