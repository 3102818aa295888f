/** The values the file processor passes around: the per-file record (`file_info`), its
    payloads, and the foreign libraries it calls, bundled as an environment of functions. */
module Records {
  import opened Wrappers
  import opened Scratch
  import opened PyStrings

  /** The `type` key of a record. */
  datatype Kind = Zip | Csv | Json | Html | Text | Markdown | Sqlite | Unknown

  /** A DataFrame cell as read by `pandas.read_csv`: an integer, a string, or a missing value (NaN). */
  datatype Cell = Num(n: int) | Str(s: string) | Missing

  /** A DataFrame: named columns (pandas makes repeated header names distinct) and rectangular rows. */
  datatype Grid = Grid(columns: seq<string>, rows: seq<seq<Cell>>)

  type Table = g: Grid | Unique(g.columns) && forall i :: 0 <= i < |g.rows| ==> |g.rows[i]| == |g.columns|
    witness Grid([], [])

  /** A value loaded by `json.load`. */
  datatype Json = JNull | JBool(b: bool) | JNum(n: int) | JStr(s: string) | JArray(items: seq<Json>) | JObject(fields: seq<(string, Json)>)

  /** An SQLite value (REAL and BLOB values are not modelled). */
  datatype SqlValue = SInt(i: int) | SText(t: string) | SNull

  /** An SQLite table: its name, its column names and its rows in storage order. */
  datatype DbTable = DbTable(name: string, columns: seq<string>, rows: seq<seq<SqlValue>>)

  /** An SQLite database as its queries see it: the tables `sqlite_master` lists with
      `type='table'`, and the views, which a query can read but that listing leaves out. Table and
      view names share one namespace. */
  datatype Database = Database(tables: seq<DbTable>, views: seq<DbTable>)

  /** The `data` key of a record. */
  datatype Data = NoData | Frame(table: Table) | Decoded(text: string) | Tree(json: Json) | Tables(tables: seq<DbTable>)

  /** `file_info`. Keys the source sets only on some paths are Options: `columns` (csv success),
      `encoding` (text fallback success), `error`, `extracted_files` and `extracted_content` (zip). */
  datatype FileInfo = FileInfo(
    path: string,
    name: string,
    kind: Kind,
    content: Option<string>,
    data: Data,
    columns: Option<seq<string>>,
    encoding: Option<string>,
    error: Option<string>,
    extractedFiles: Option<seq<string>>,
    extractedContent: Option<seq<Member>>)

  /** One item of `extracted_content`: the listed name and the record of `<extract dir>/<name>`. */
  datatype Member = Member(name: string, info: FileInfo)

  /** The shape `extract_file_info` gives a record: a csv record holds a table together with its
      column list, or neither; a text, html or markdown record holds its decoded text or nothing;
      an archive record holds its members and no `data`. */
  predicate Shaped(info: FileInfo) {
    && (info.kind == Csv ==>
          (info.data.Frame? && info.columns == Some(info.data.table.columns)) || (info.data.NoData? && info.columns.None?))
    && (info.kind == Kind.Text || info.kind == Html || info.kind == Markdown ==> info.data.Decoded? || info.data.NoData?)
    && (info.kind == Zip ==> info.data.NoData? && info.extractedContent.Some?)
  }

  /** An element of a parsed HTML document: lower-cased tag name and attributes. */
  datatype Element = Element(tag: string, attrs: map<string, string>)

  /** The response dictionary `{"answer": ...}`. */
  datatype Reply = Reply(answer: string)

  /** An uploaded file: its name, its bytes, and, when the bytes form a zip archive, the tree it extracts to. */
  datatype Upload = Upload(name: string, bytes: Bytes, archive: Option<seq<Entry>>)

  /** Django reduces an uploaded file's name to one path component. */
  predicate SafeName(name: string) {
    (forall k :: 0 <= k < |name| ==> name[k] != '/') && name != "." && name != ".."
  }

  /** The foreign libraries, as functions whose results the model does not interpret. */
  datatype Env = Env(
    /** `chardet.detect(raw)['encoding']`. */
    detect: Bytes -> Option<string>,
    /** Decoding with a named codec other than latin1; Err carries the UnicodeDecodeError/LookupError text. */
    decode: (string, Bytes) -> Result<string>,
    /** `pd.read_csv(path, encoding=enc)`. */
    readCsv: (string, Bytes) -> Result<Table>,
    /** `DataFrame.to_string()`. */
    renderTable: Table -> string,
    /** `json.load` on the file opened in text mode. */
    loadJson: Bytes -> Result<Json>,
    /** `json.dumps(data, indent=2)`. */
    dumpJson: Json -> string,
    /** The tables and views of an SQLite database file, with their columns and rows in storage
        order; Err (`file is not a database`) when the bytes are not an SQLite database. */
    openDb: Bytes -> Result<Database>,
    /** `str()` of the sampled table dictionary. */
    reprTables: seq<DbTable> -> string,
    /** `str()` of the `extracted_content` dictionary. */
    reprMembers: seq<Member> -> string,
    /** `BeautifulSoup(content, 'html.parser')`: the elements in document order. */
    parseHtml: string -> seq<Element>,
    /** `hashlib.sha256(s.encode('utf-8')).hexdigest()`. */
    sha256: string -> string)

  /** Index of `name` among `cols`, or -1. */
  function ColumnIndex(cols: seq<string>, name: string): (k: int)
    ensures -1 <= k < |cols|
    ensures k >= 0 ==> cols[k] == name && forall j :: 0 <= j < k ==> cols[j] != name
    ensures k < 0 ==> forall j :: 0 <= j < |cols| ==> cols[j] != name
  {
    if cols == [] then -1
    else if cols[0] == name then 0
    else var k := ColumnIndex(cols[1..], name); if k < 0 then -1 else k + 1
  }

  /** `df.head(n)`. */
  function Head(t: Table, n: nat): (r: Table)
    ensures r.columns == t.columns && |r.rows| <= n && r.rows <= t.rows
    ensures |t.rows| <= n ==> r == t
  {
    if |t.rows| <= n then t else Grid(t.columns, t.rows[..n])
  }

  /** The cells of column `k`, top to bottom. */
  function Column(t: Table, k: nat): (col: seq<Cell>)
    requires k < |t.columns|
    ensures |col| == |t.rows| && forall i :: 0 <= i < |t.rows| ==> col[i] == t.rows[i][k]
  {
    seq(|t.rows|, i requires 0 <= i < |t.rows| => t.rows[i][k])
  }

  /** pandas stores a column of integers that has a missing value as float64. */
  predicate FloatColumn(col: seq<Cell>) {
    Missing in col && forall c :: c in col ==> !c.Str?
  }

  /** `str()` of the cell in row `i` and column `k`: a missing value prints as `nan`, and an
      integer in a float64 column prints with `.0`. */
  function CellText(t: Table, i: nat, k: nat): string
    requires i < |t.rows| && k < |t.columns|
  {
    match t.rows[i][k]
    case Num(n) => if FloatColumn(Column(t, k)) then IntToString(n) + ".0" else IntToString(n)
    case Str(s) => s
    case Missing => "nan"
  }
}
