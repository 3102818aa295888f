/** `FileProcessor.extract_file_info`: suffix classification, per-kind records with their
    decoding fallbacks, and the recursive walk of zip archives through the scratch tree. */
module Extraction {
  import opened Wrappers
  import opened PyStrings
  import opened Scratch
  import opened Records

  // ---------------------------------------------------------------------------------------------
  // Classification

  /** The kind the `endswith` chain assigns to a path; a path with none of the twelve suffixes
      is `unknown`. */
  function Classify(path: string): (k: Kind)
    ensures k == Unknown <==> !KnownSuffix(path)
  {
    if EndsWith(path, ".zip") then Zip
    else if EndsWith(path, ".csv") then Csv
    else if EndsWith(path, ".json") then Json
    else if EndsWith(path, ".txt") || EndsWith(path, ".log") || EndsWith(path, ".html") || EndsWith(path, ".htm") then
      (if EndsWith(path, ".html") || EndsWith(path, ".htm") then Html else Kind.Text)
    else if EndsWith(path, ".md") || EndsWith(path, ".markdown") then Markdown
    else if EndsWith(path, ".db") || EndsWith(path, ".sqlite") || EndsWith(path, ".sqlite3") then Sqlite
    else Unknown
  }

  lemma Tails(s: string)
    ensures EndsWith(s, ".zip") ==> s[|s| - 2..] == "ip"
    ensures EndsWith(s, ".csv") ==> s[|s| - 2..] == "sv"
    ensures EndsWith(s, ".json") ==> s[|s| - 2..] == "on"
    ensures EndsWith(s, ".txt") ==> s[|s| - 2..] == "xt"
    ensures EndsWith(s, ".log") ==> s[|s| - 2..] == "og"
    ensures EndsWith(s, ".html") ==> s[|s| - 2..] == "ml"
    ensures EndsWith(s, ".htm") ==> s[|s| - 2..] == "tm"
    ensures EndsWith(s, ".md") ==> s[|s| - 2..] == "md"
    ensures EndsWith(s, ".markdown") ==> s[|s| - 2..] == "wn"
    ensures EndsWith(s, ".db") ==> s[|s| - 2..] == "db"
    ensures EndsWith(s, ".sqlite") ==> s[|s| - 2..] == "te"
    ensures EndsWith(s, ".sqlite3") ==> s[|s| - 2..] == "e3"
  {
    TailOf(s, ".zip"); TailOf(s, ".csv"); TailOf(s, ".json"); TailOf(s, ".txt");
    TailOf(s, ".log"); TailOf(s, ".html"); TailOf(s, ".htm"); TailOf(s, ".md");
    TailOf(s, ".markdown"); TailOf(s, ".db"); TailOf(s, ".sqlite"); TailOf(s, ".sqlite3");
  }

  lemma TailOf(s: string, suffix: string)
    requires |suffix| >= 2
    ensures EndsWith(s, suffix) ==> s[|s| - 2..] == suffix[|suffix| - 2..]
  {
    if EndsWith(s, suffix) {
      assert s[|s| - 2..] == s[|s| - |suffix|..][|suffix| - 2..];
    }
  }

  /** The path ends with one of the twelve recognised suffixes. */
  predicate KnownSuffix(s: string) {
    EndsWith(s, ".zip") || EndsWith(s, ".csv") || EndsWith(s, ".json")
    || EndsWith(s, ".txt") || EndsWith(s, ".log") || EndsWith(s, ".html") || EndsWith(s, ".htm")
    || EndsWith(s, ".md") || EndsWith(s, ".markdown")
    || EndsWith(s, ".db") || EndsWith(s, ".sqlite") || EndsWith(s, ".sqlite3")
  }

  /** Each kind is exactly the set of paths ending with one of its own suffixes. No path ends with
      suffixes of two kinds, so the order of the `endswith` chain never has to decide. */
  lemma ClassifyBySuffix(s: string)
    ensures Classify(s) == Zip <==> EndsWith(s, ".zip")
    ensures Classify(s) == Csv <==> EndsWith(s, ".csv")
    ensures Classify(s) == Json <==> EndsWith(s, ".json")
    ensures Classify(s) == Kind.Text <==> EndsWith(s, ".txt") || EndsWith(s, ".log")
    ensures Classify(s) == Html <==> EndsWith(s, ".html") || EndsWith(s, ".htm")
    ensures Classify(s) == Markdown <==> EndsWith(s, ".md") || EndsWith(s, ".markdown")
    ensures Classify(s) == Sqlite <==> EndsWith(s, ".db") || EndsWith(s, ".sqlite") || EndsWith(s, ".sqlite3")
    ensures Classify(s) == Unknown <==> !KnownSuffix(s)
  {
    Tails(s);
  }

  /** Matching is case-sensitive: an upper-case extension is not recognised. */
  lemma UpperCaseUnknown(s: string)
    requires s != [] && 'A' <= s[|s| - 1] <= 'Z'
    ensures Classify(s) == Unknown
  {
    ClassifyBySuffix(s);
    Tails(s);
    if |s| >= 2 {
      assert s[|s| - 2..][1] == s[|s| - 1];
    }
  }

  /** A suffix without '/' matches `<dir>/<name>` exactly when it matches `<name>`. */
  lemma EndsWithComponent(dir: string, name: string, suffix: string)
    requires forall k :: 0 <= k < |suffix| ==> suffix[k] != '/'
    ensures EndsWith(dir + "/" + name, suffix) <==> EndsWith(name, suffix)
  {
    var s := dir + "/" + name;
    if |suffix| <= |name| {
      assert s[|s| - |suffix|..] == name[|name| - |suffix|..];
    } else if |suffix| <= |s| {
      assert s[|s| - |name| - 1] == '/';
      assert s[|s| - |suffix|..][|suffix| - |name| - 1] == '/';
    }
  }

  /** The kind of an archive member depends on its own name only, not on the directory it sits in. */
  lemma ClassifyComponent(dir: string, name: string)
    ensures Classify(dir + "/" + name) == Classify(name)
  {
    var s := dir + "/" + name;
    EndsWithComponent(dir, name, ".zip");
    EndsWithComponent(dir, name, ".csv");
    EndsWithComponent(dir, name, ".json");
    EndsWithComponent(dir, name, ".txt");
    EndsWithComponent(dir, name, ".log");
    EndsWithComponent(dir, name, ".html");
    EndsWithComponent(dir, name, ".htm");
    EndsWithComponent(dir, name, ".md");
    EndsWithComponent(dir, name, ".markdown");
    EndsWithComponent(dir, name, ".db");
    EndsWithComponent(dir, name, ".sqlite");
    EndsWithComponent(dir, name, ".sqlite3");
  }

  // ---------------------------------------------------------------------------------------------
  // Paths and decoding

  /** `os.path.join(temp_dir, *p)`. */
  function PathText(tmp: string, p: Path): string {
    tmp + "/" + Join(p, "/")
  }

  /** `f.read(n)`. */
  function Prefix(b: Bytes, n: nat): (r: Bytes)
    ensures |r| <= n && r <= b
  {
    if |b| <= n then b else b[..n]
  }

  /** The latin1 codec: byte k becomes the character U+00kk. */
  function Latin1(b: Bytes): (s: string)
    ensures |s| == |b| && forall k :: 0 <= k < |b| ==> s[k] as int == b[k] as int
  {
    if b == [] then "" else [(b[0] as int) as char] + Latin1(b[1..])
  }

  /** Universal-newline translation of text-mode reads: "\r\n" and a lone "\r" become "\n". */
  function Newlines(s: string): (r: string)
    ensures forall k :: 0 <= k < |r| ==> r[k] != '\r'
    decreases |s|
  {
    if s == [] then ""
    else if s[0] == '\r' then "\n" + Newlines(if |s| > 1 && s[1] == '\n' then s[2..] else s[1..])
    else [s[0]] + Newlines(s[1..])
  }

  /** `open(path, 'r', encoding=enc).read()` on file bytes `b`. */
  function DecodeText(env: Env, enc: string, b: Bytes): Result<string> {
    var raw := if enc == "latin1" then Ok(Latin1(b)) else env.decode(enc, b);
    match raw
    case Ok(s) => Ok(Newlines(s))
    case Err(e) => Err(e)
  }

  /** An attempt to open and read the file with `enc`; opening fails as reading the bytes did. */
  function Attempt(env: Env, rb: Result<Bytes>, enc: string): Result<string> {
    match rb
    case Err(m) => Err(m)
    case Ok(b) => DecodeText(env, enc, b)
  }

  /** `detected['encoding'] or 'utf-8'`. */
  function Detected(d: Option<string>): (enc: string)
    ensures enc != ""
    ensures d.Some? && d.value != "" ==> enc == d.value
  {
    match d
    case Some(e) => if e != "" then e else "utf-8"
    case None => "utf-8"
  }

  const Fallbacks: seq<string> := ["utf-8", "cp1252", "latin1", "utf-16"]

  /** The first of `encs` that reads the file, with the text it gives. */
  function FirstDecoding(env: Env, rb: Result<Bytes>, encs: seq<string>): (r: Option<(string, string)>)
    ensures r.Some? ==> r.value.0 in encs && Attempt(env, rb, r.value.0) == Ok(r.value.1)
    ensures r.None? ==> forall k :: 0 <= k < |encs| ==> Attempt(env, rb, encs[k]).Err?
  {
    if encs == [] then None
    else match Attempt(env, rb, encs[0])
      case Ok(s) => Some((encs[0], s))
      case Err(_) => FirstDecoding(env, rb, encs[1..])
  }

  // ---------------------------------------------------------------------------------------------
  // Per-kind records

  /** The record as initialised: only `path`, `name` and `type` set. */
  function Base(path: string, name: string, kind: Kind): FileInfo {
    FileInfo(path, name, kind, None, NoData, None, None, None, None, None)
  }

  function Tabulated(env: Env, base: FileInfo, t: Table): FileInfo {
    base.(data := Frame(t), content := Some(env.renderTable(Head(t, 20))), columns := Some(t.columns))
  }

  /** The csv branch: the detected encoding (from the first 1024 bytes), then cp1252 once. */
  function CsvInfo(env: Env, base: FileInfo, rb: Result<Bytes>): (r: FileInfo)
    ensures r.path == base.path && r.name == base.name && r.kind == base.kind
    ensures || (r.error.Some? && r == base.(error := r.error))
            || (r.error == base.error && r.data.Frame? && r.columns == Some(r.data.table.columns) && r.content.Some?)
    ensures rb.Err? ==> r == base.(error := Some(rb.msg + "; " + rb.msg))
  {
    match rb
    case Err(m) => base.(error := Some(m + "; " + m))
    case Ok(b) =>
      match env.readCsv(Detected(env.detect(Prefix(b, 1024))), b)
      case Ok(t) => Tabulated(env, base, t)
      case Err(e) =>
        match env.readCsv("cp1252", b)
        case Ok(t) => Tabulated(env, base, t)
        case Err(ie) => base.(error := Some(e + "; " + ie))
  }

  /** The json branch: the parsed tree and the first 2000 characters of its indented dump. */
  function JsonInfo(env: Env, base: FileInfo, rb: Result<Bytes>): (r: FileInfo)
    ensures r.path == base.path && r.name == base.name && r.kind == base.kind
    ensures || (r.error.Some? && r == base.(error := r.error))
            || (r.error == base.error && r.data.Tree? && r.content.Some? && |r.content.value| <= 2000)
    ensures rb.Err? ==> r == base.(error := Some(rb.msg))
  {
    match rb
    case Err(m) => base.(error := Some(m))
    case Ok(b) =>
      match env.loadJson(b)
      case Ok(j) => base.(data := Tree(j), content := Some(Truncate(env.dumpJson(j), 2000)))
      case Err(e) => base.(error := Some(e))
  }

  /** The text and html branch: the detected encoding (from the first 4096 bytes), then the
      fallback list; `encoding` is recorded only when a fallback succeeds. */
  function TextInfo(env: Env, base: FileInfo, rb: Result<Bytes>): (r: FileInfo)
    ensures r.path == base.path && r.name == base.name && r.kind == base.kind
    ensures || (r.error.Some? && r == base.(error := r.error))
            || (r.error == base.error && r.data.Decoded? && r.content == Some(Truncate(r.data.text, 10000)))
    ensures rb.Err? ==> r.error.Some? && r == base.(error := r.error)
  {
    match DetectedAttempt(env, rb)
    case Ok(s) => base.(content := Some(Truncate(s, 10000)), data := Decoded(s))
    case Err(e) =>
      match FirstDecoding(env, rb, Fallbacks)
      case Some((enc, s)) => base.(content := Some(Truncate(s, 10000)), data := Decoded(s), encoding := Some(enc))
      case None => base.(error := Some(e))
  }

  /** Reading the file with the encoding chardet reports for its first 4096 bytes. */
  function DetectedAttempt(env: Env, rb: Result<Bytes>): Result<string> {
    match rb
    case Err(m) => Err(m)
    case Ok(b) => DecodeText(env, Detected(env.detect(Prefix(b, 4096))), b)
  }

  /** The markdown branch: utf-8 only, the whole text kept. */
  function MarkdownInfo(env: Env, base: FileInfo, rb: Result<Bytes>): (r: FileInfo)
    ensures r.path == base.path && r.name == base.name && r.kind == base.kind
    ensures || (r.error.Some? && r == base.(error := r.error))
            || (r.error == base.error && r.data.Decoded? && r.content == Some(r.data.text))
    ensures rb.Err? ==> r.error.Some? && r == base.(error := r.error)
  {
    match Attempt(env, rb, "utf-8")
    case Ok(s) => base.(content := Some(s), data := Decoded(s))
    case Err(e) => base.(error := Some(e))
  }

  /** Each table with its first five rows, in `sqlite_master` order. */
  function Samples(ts: seq<DbTable>): (r: seq<DbTable>)
    ensures |r| == |ts| && forall k :: 0 <= k < |ts| ==> r[k] == Sample(ts[k])
    ensures forall k :: 0 <= k < |ts| ==>
      r[k].name == ts[k].name && r[k].columns == ts[k].columns && |r[k].rows| <= 5 && r[k].rows <= ts[k].rows
      && (|ts[k].rows| <= 5 ==> r[k].rows == ts[k].rows)
  {
    if ts == [] then [] else [Sample(ts[0])] + Samples(ts[1..])
  }

  function Sample(t: DbTable): DbTable {
    DbTable(t.name, t.columns, if |t.rows| <= 5 then t.rows else t.rows[..5])
  }

  const CannotOpenDb := "unable to open database file"

  /** A character SQLite's tokenizer takes as part of an identifier: an ASCII letter or digit, `_`,
      `$`, or any character beyond ASCII. */
  predicate IdChar(c: char) {
    ('a' <= c <= 'z') || ('A' <= c <= 'Z') || ('0' <= c <= '9') || c == '_' || c == '$' || c as int >= 0x80
  }

  /** A table name that reads as one identifier when pasted unquoted into `PRAGMA table_info(...)`
      and `SELECT * FROM ... LIMIT 5`: it starts with a letter, `_` or a character beyond ASCII,
      and goes on with identifier characters. `my table`, `2024` or `a-b` are not bare. */
  predicate BareName(s: string) {
    s != [] && s[0] != '$' && !('0' <= s[0] <= '9') && IdChars(s)
  }

  predicate IdChars(s: string) {
    s == [] || (IdChar(s[0]) && IdChars(s[1..]))
  }

  /** The `sqlite3.OperationalError` of a statement that does not parse. */
  function SyntaxError(name: string): string {
    "near \"" + name + "\": syntax error"
  }

  /** The loop over the listed tables. Each name is pasted unquoted into two statements, so the
      first name that is not a bare identifier raises, and that ends the loop; otherwise every
      table is sampled. */
  function Introspect(ts: seq<DbTable>): (r: Result<seq<DbTable>>)
    ensures r.Ok? <==> forall k :: 0 <= k < |ts| ==> BareName(ts[k].name)
    ensures r.Ok? ==> r.value == Samples(ts)
    ensures r.Err? ==> exists k :: (0 <= k < |ts| && !BareName(ts[k].name)
      && (forall j :: 0 <= j < k ==> BareName(ts[j].name)) && r.msg == SyntaxError(ts[k].name))
  {
    if ts == [] then Ok([])
    else if !BareName(ts[0].name) then Err(SyntaxError(ts[0].name))
    else
      var r := Introspect(ts[1..]);
      assert forall k :: 1 <= k < |ts| ==> ts[k] == ts[1..][k - 1];
      match r
      case Ok(s) => Ok([Sample(ts[0])] + s)
      case Err(e) =>
        var k :| 0 <= k < |ts[1..]| && !BareName(ts[1..][k].name)
          && (forall j :: 0 <= j < k ==> BareName(ts[1..][j].name)) && e == SyntaxError(ts[1..][k].name);
        assert !BareName(ts[k + 1].name) && forall j :: 0 <= j < k + 1 ==> BareName(ts[j].name);
        Err(e)
  }

  /** The sqlite branch: a file that is not a database records the error of the first query; a
      table name that is not a bare identifier records a syntax error. Either way `data` and
      `content` stay unset. */
  function SqliteInfo(env: Env, base: FileInfo, rb: Result<Bytes>): (r: FileInfo)
    ensures r.path == base.path && r.name == base.name && r.kind == base.kind
    ensures || (r.error.Some? && r == base.(error := r.error))
            || (r.error == base.error && r.data.Tables? && r.content.Some?)
    ensures rb.Err? ==> r == base.(error := Some(CannotOpenDb))
    ensures r.data.Tables? && !base.data.Tables? ==>
      && rb.Ok? && env.openDb(rb.value).Ok?
      && (forall k :: 0 <= k < |env.openDb(rb.value).value.tables| ==> BareName(env.openDb(rb.value).value.tables[k].name))
      && r.data.tables == Samples(env.openDb(rb.value).value.tables)
  {
    match rb
    case Err(_) => base.(error := Some(CannotOpenDb))
    case Ok(b) =>
      match env.openDb(b)
      case Err(e) => base.(error := Some(e))
      case Ok(db) =>
        match Introspect(db.tables)
        case Ok(s) => base.(data := Tables(s), content := Some(env.reprTables(s)))
        case Err(e) => base.(error := Some(e))
  }

  /** The record of a file that is neither an archive: it reads the file and never changes the tree. */
  function LeafInfo(env: Env, fs: Node, p: Path, path: string, base: FileInfo): (r: FileInfo)
    ensures r.path == base.path && r.name == base.name && r.kind == base.kind
  {
    match base.kind
    case Csv => CsvInfo(env, base, ReadBytes(fs, p, path))
    case Json => JsonInfo(env, base, ReadBytes(fs, p, path))
    case Html => TextInfo(env, base, ReadBytes(fs, p, path))
    case Text => TextInfo(env, base, ReadBytes(fs, p, path))
    case Markdown => MarkdownInfo(env, base, ReadBytes(fs, p, path))
    case Sqlite => SqliteInfo(env, base, ReadBytes(fs, p, path))
    case _ => base.(content := Some("File type not supported: " + path))
  }

  /** Every record but an archive's comes out of its branch with the shape the rules rely on. */
  lemma LeafShaped(env: Env, fs: Node, p: Path, path: string, base: FileInfo)
    requires base.data.NoData? && base.columns.None? && base.kind != Zip
    ensures Shaped(LeafInfo(env, fs, p, path, base))
  {
  }

  /** `zipfile.ZipFile(path)` on something that is not an archive. */
  function NotAnArchive(node: Option<Node>, path: string): string {
    match node
    case Some(Dir(_)) => IsADirectory + ": '" + path + "'"
    case None => "[Errno 2] No such file or directory: '" + path + "'"
    case _ => "File is not a zip file"
  }

  /** `os.makedirs(<parent>/extracted, exist_ok=True)` raises. */
  predicate MakedirsFails(fs: Node, parent: Path) {
    match Get(fs, parent)
    case Some(Dir(es)) => EnsureExtractDir(es).Err?
    case _ => false
  }

  /** The directory an archive at `p` is extracted into. */
  function ExtractDir(p: Path): (x: Path)
    requires |p| >= 1
    ensures |x| == |p|
  {
    p[..|p| - 1] + ["extracted"]
  }

  // ---------------------------------------------------------------------------------------------
  // The archive walk. `H` bounds the height of the tree; a node at depth d has height at most H - d,
  // which is what makes the walk through shared extraction directories terminate.

  /** `extract_file_info(<tmp>/<p>)`: the new tree and the record, or the exception that escapes.
      Only the archive branch can raise; every other branch records its failure in `error` and
      leaves the tree as it is. */
  function Extract(env: Env, tmp: string, fs: Node, p: Path, ghost H: nat): (r: Result<(Node, FileInfo)>)
    requires 1 <= |p| <= H && Height(fs) <= H && WF(fs)
    ensures r.Ok? ==> Height(r.value.0) <= H && WF(r.value.0)
    ensures r.Ok? ==> r.value.1.path == PathText(tmp, p) && r.value.1.name == p[|p| - 1]
                      && r.value.1.kind == Classify(PathText(tmp, p)) && Shaped(r.value.1)
    ensures Classify(PathText(tmp, p)) != Zip ==> r.Ok? && r.value.0 == fs
    ensures r.Err? ==> Classify(PathText(tmp, p)) == Zip
    decreases H + 1 - |p|, 2, 0
  {
    var path := PathText(tmp, p);
    var base := Base(path, p[|p| - 1], Classify(path));
    if base.kind != Zip then LeafShaped(env, fs, p, path, base); Ok((fs, LeafInfo(env, fs, p, path, base)))
    else ExtractArchive(env, tmp, fs, p, base, H)
  }

  /** The archive branch: makedirs, extractall, listdir, and a record for every listed name. */
  function ExtractArchive(env: Env, tmp: string, fs: Node, p: Path, base: FileInfo, ghost H: nat)
    : (r: Result<(Node, FileInfo)>)
    requires 1 <= |p| <= H && Height(fs) <= H && WF(fs)
    ensures r.Ok? ==> Height(r.value.0) <= H && WF(r.value.0)
    ensures r.Ok? ==> r.value.1.path == base.path && r.value.1.name == base.name && r.value.1.kind == base.kind
    ensures r.Ok? && base.data.NoData? && base.kind == Zip ==> Shaped(r.value.1)
    decreases H + 1 - |p|, 1, 0
  {
    var parent := p[..|p| - 1];
    match Get(fs, p)
    case Some(Archive(_, ms)) =>
      GetHeight(fs, p);
      ExtractIntoHeight(fs, parent, ms, H);
      ExtractIntoWF(fs, parent, ms);
      (match ExtractInto(fs, parent, ms)
       case Err(e) => Err(e)
       case Ok(fs1) =>
         var names := ListDir(fs1, ExtractDir(p));
         match ExtractMembers(env, tmp, fs1, ExtractDir(p), names, H)
         case Err(e) => Err(e)
         case Ok((fs2, members)) =>
           Ok((fs2, base.(content := Some(env.reprMembers(members)), extractedFiles := Some(names),
                          extractedContent := Some(members)))))
    case node => Err(if MakedirsFails(fs, parent) then FileExists else NotAnArchive(node, base.path))
  }

  /** The loop over `os.listdir(<extract dir>)`: one record per listed name, in order. */
  function ExtractMembers(env: Env, tmp: string, fs: Node, x: Path, names: seq<string>, ghost H: nat)
    : (r: Result<(Node, seq<Member>)>)
    requires |x| + 1 <= H && Height(fs) <= H && WF(fs)
    ensures r.Ok? ==> Height(r.value.0) <= H && WF(r.value.0)
    ensures r.Ok? ==> |r.value.1| == |names| && forall k :: 0 <= k < |names| ==>
      r.value.1[k].name == names[k] && r.value.1[k].info.path == PathText(tmp, x + [names[k]])
      && r.value.1[k].info.kind == Classify(PathText(tmp, x + [names[k]])) && Shaped(r.value.1[k].info)
    decreases H - |x|, 3, |names|
  {
    if names == [] then Ok((fs, []))
    else
      match Extract(env, tmp, fs, x + [names[0]], H)
      case Err(e) => Err(e)
      case Ok((fs1, info)) =>
        match ExtractMembers(env, tmp, fs1, x, names[1..], H)
        case Err(e) => Err(e)
        case Ok((fs2, ms)) => Ok((fs2, [Member(names[0], info)] + ms))
  }

  // ---------------------------------------------------------------------------------------------
  // Properties of the records

  /** latin1 decodes every byte string, so for a readable file the fallback list always succeeds,
      picks the first of utf-8, cp1252, latin1 that works, and never reaches utf-16. */
  lemma FallbackStopsAtLatin1(env: Env, b: Bytes)
    ensures var r := FirstDecoding(env, Ok(b), Fallbacks);
      && r.Some? && r.value.0 != "utf-16"
      && (DecodeText(env, "utf-8", b).Ok? ==> r.value == ("utf-8", DecodeText(env, "utf-8", b).value))
      && (DecodeText(env, "utf-8", b).Err? && DecodeText(env, "cp1252", b).Ok? ==>
            r.value == ("cp1252", DecodeText(env, "cp1252", b).value))
      && (DecodeText(env, "utf-8", b).Err? && DecodeText(env, "cp1252", b).Err? ==>
            r.value == ("latin1", Newlines(Latin1(b))))
  {
    assert Fallbacks[1..] == ["cp1252", "latin1", "utf-16"];
    assert Fallbacks[1..][1..] == ["latin1", "utf-16"];
    assert Attempt(env, Ok(b), "latin1") == Ok(Newlines(Latin1(b)));
    assert FirstDecoding(env, Ok(b), ["latin1", "utf-16"]) == Some(("latin1", Newlines(Latin1(b))));
  }

  /** The text and html record: an error is recorded only when the file cannot be read at all;
      otherwise it holds the whole text as `data` and its first 10000 characters as `content`,
      and `encoding` is set exactly when the detected encoding failed. */
  lemma TextRecord(env: Env, base: FileInfo, rb: Result<Bytes>)
    requires base.content.None? && base.error.None? && base.encoding.None?
    ensures var r := TextInfo(env, base, rb);
      && (r.error.Some? <==> rb.Err?)
      && (rb.Err? ==> r.error == Some(rb.msg) && r.content.None? && r.data == base.data)
      && (rb.Ok? ==> r.data.Decoded? && r.content == Some(Truncate(r.data.text, 10000)))
      && (r.encoding.Some? <==> rb.Ok? && DetectedAttempt(env, rb).Err?)
      && (r.encoding.Some? ==> r.encoding.value in {"utf-8", "cp1252", "latin1"})
  {
    if rb.Ok? { FallbackStopsAtLatin1(env, rb.value); }
  }

  /** The csv record: the table comes from the detected encoding or else cp1252; when both fail the
      two messages are joined with "; " and `data`, `content` and `columns` stay unset. */
  lemma CsvRecord(env: Env, base: FileInfo, rb: Result<Bytes>)
    requires base.content.None? && base.error.None? && base.data.NoData? && base.columns.None?
    ensures var r := CsvInfo(env, base, rb);
      && (r.error.Some? <==> r.data.NoData?)
      && (r.data.Frame? ==>
            r.columns == Some(r.data.table.columns) && r.error.None?
            && r.content == Some(env.renderTable(Head(r.data.table, 20))))
      && (r.error.Some? ==> r.content.None? && r.columns.None?)
      && (rb.Ok? ==>
            var first := env.readCsv(Detected(env.detect(Prefix(rb.value, 1024))), rb.value);
            var second := env.readCsv("cp1252", rb.value);
            && (first.Ok? ==> r.data == Frame(first.value))
            && (first.Err? && second.Ok? ==> r.data == Frame(second.value))
            && (first.Err? && second.Err? ==> r.error == Some(first.msg + "; " + second.msg)))
      && r.encoding == base.encoding
  {
  }

  /** The markdown record keeps the whole utf-8 text, untruncated, in both `content` and `data`. */
  lemma MarkdownRecord(env: Env, base: FileInfo, b: Bytes)
    requires base.error.None?
    ensures var r := MarkdownInfo(env, base, Ok(b));
      && (DecodeText(env, "utf-8", b).Ok? ==>
            r.content == Some(DecodeText(env, "utf-8", b).value) && r.data == Decoded(r.content.value) && r.error.None?)
      && (DecodeText(env, "utf-8", b).Err? ==> r.error == Some(DecodeText(env, "utf-8", b).msg) && r.content == base.content)
  {
  }

  /** The json record holds the loaded value and, as its excerpt, the first 2000 characters of
      the indented dump (all of it when it is shorter); a file that cannot be read or parsed
      records the error and nothing else. */
  lemma JsonRecord(env: Env, base: FileInfo, rb: Result<Bytes>)
    requires base.data.NoData?
    ensures var r := JsonInfo(env, base, rb);
      && (r.data.Tree? <==> rb.Ok? && env.loadJson(rb.value).Ok?)
      && (r.data.Tree? ==>
            && r.data.json == env.loadJson(rb.value).value && r.error == base.error
            && r.content == Some(Truncate(env.dumpJson(r.data.json), 2000))
            && |r.content.value| <= 2000 && r.content.value <= env.dumpJson(r.data.json)
            && (|env.dumpJson(r.data.json)| > 2000 ==> |r.content.value| == 2000))
      && (rb.Err? ==> r == base.(error := Some(rb.msg)))
      && (rb.Ok? && env.loadJson(rb.value).Err? ==> r == base.(error := Some(env.loadJson(rb.value).msg)))
  {
  }

  /** An archive's record lists the extraction directory once extraction is done: every top-level
      member of the archive is listed, names listed there before (by a sibling archive extracted
      into the same directory) come first, no name is listed twice, and each listed name has a
      record, in listing order, whose kind follows from that name alone. */
  lemma ArchiveRecord(env: Env, tmp: string, fs: Node, p: Path, base: FileInfo, H: nat)
    requires 1 <= |p| <= H && Height(fs) <= H && WF(fs)
    requires Get(fs, p).Some? && Get(fs, p).value.Archive?
    ensures var r := ExtractArchive(env, tmp, fs, p, base, H);
      r.Ok? ==>
        var info := r.value.1;
        && info.extractedFiles.Some? && info.extractedContent.Some?
        && var names := info.extractedFiles.value;
        && var members := info.extractedContent.value;
        && Unique(names)
        && ListDir(fs, ExtractDir(p)) <= names
        && (forall k :: 0 <= k < |Get(fs, p).value.members| ==> Get(fs, p).value.members[k].name in names)
        && |members| == |names|
        && (forall k :: 0 <= k < |names| ==> members[k].name == names[k] && members[k].info.kind == Classify(names[k]))
        && info.content == Some(env.reprMembers(members))
  {
    var parent := p[..|p| - 1];
    var ms := Get(fs, p).value.members;
    GetHeight(fs, p);
    ExtractIntoHeight(fs, parent, ms, H);
    ExtractIntoWF(fs, parent, ms);
    var r1 := ExtractInto(fs, parent, ms);
    if r1.Ok? {
      ExtractedListing(fs, p);
      var x := ExtractDir(p);
      var names := ListDir(r1.value, x);
      var r2 := ExtractMembers(env, tmp, r1.value, x, names, H);
      if r2.Ok? {
        MemberKinds(tmp, x, names, r2.value.1);
      }
    }
  }

  lemma ExtractedListing(fs: Node, p: Path)
    requires |p| >= 1 && WF(fs) && Get(fs, p).Some? && Get(fs, p).value.Archive?
    ensures var ms := Get(fs, p).value.members;
      var r := ExtractInto(fs, p[..|p| - 1], ms);
      r.Ok? ==>
        var names := ListDir(r.value, ExtractDir(p));
        && Unique(names)
        && ListDir(fs, ExtractDir(p)) <= names
        && (forall k :: 0 <= k < |ms| ==> ms[k].name in names)
  {
    var parent := p[..|p| - 1];
    var ms := Get(fs, p).value.members;
    ExtractIntoWF(fs, parent, ms);
    ExtractIntoListing(fs, parent, ms);
    var r := ExtractInto(fs, parent, ms);
    if r.Ok? {
      var x := ExtractDir(p);
      assert x == parent + ["extracted"];
      var g := Get(r.value, x);
      if g.Some? && g.value.Dir? { GetWF(r.value, x); }
    }
  }

  lemma MemberKinds(tmp: string, x: Path, names: seq<string>, members: seq<Member>)
    requires x != [] && |members| == |names|
    requires forall k :: 0 <= k < |names| ==> members[k].info.kind == Classify(PathText(tmp, x + [names[k]]))
    ensures forall k :: 0 <= k < |names| ==> members[k].info.kind == Classify(names[k])
  {
    forall k | 0 <= k < |names| ensures members[k].info.kind == Classify(names[k]) {
      JoinAppend(x, names[k], "/");
      assert PathText(tmp, x + [names[k]]) == (tmp + "/" + Join(x, "/")) + "/" + names[k];
      ClassifyComponent(tmp + "/" + Join(x, "/"), names[k]);
    }
  }

  // ---------------------------------------------------------------------------------------------
  // `extract_file_info` as the source runs it: the record filled in branch by branch, the
  // fallback loop with its early exit, the loop over sqlite tables and the loop over the listing.

  /** `Extract` with the listing's remaining records put after `done`. */
  function Prepended(done: seq<Member>, rest: Result<(Node, seq<Member>)>): Result<(Node, seq<Member>)> {
    match rest
    case Ok((f, ms)) => Ok((f, done + ms))
    case Err(e) => Err(e)
  }

  method ExtractFileInfo(env: Env, tmp: string, fs: Node, p: Path, ghost H: nat) returns (r: Result<(Node, FileInfo)>)
    requires 1 <= |p| <= H && Height(fs) <= H && WF(fs)
    ensures r == Extract(env, tmp, fs, p, H)
    decreases H + 1 - |p|, 1
  {
    var path := PathText(tmp, p);
    var info := Base(path, p[|p| - 1], Unknown);
    if EndsWith(path, ".zip") {
      assert Classify(path) == Zip;
      r := ExtractZip(env, tmp, fs, p, info.(kind := Zip), H);
    } else {
      info := ExtractLeaf(env, fs, p, path, info);
      r := Ok((fs, info));
    }
  }

  /** The branches after the zip one; none of them raises or changes the tree. The suffix tests
      of the `elif` chain are `Classify`. */
  method ExtractLeaf(env: Env, fs: Node, p: Path, path: string, base: FileInfo) returns (info: FileInfo)
    requires !EndsWith(path, ".zip")
    ensures info == LeafInfo(env, fs, p, path, base.(kind := Classify(path)))
  {
    var kind := Classify(path);
    match kind {
      case Csv =>
        info := CsvInfo(env, base.(kind := Csv), ReadBytes(fs, p, path));
      case Json =>
        info := JsonInfo(env, base.(kind := Json), ReadBytes(fs, p, path));
      case Html =>
        info := ReadText(env, base.(kind := Html), ReadBytes(fs, p, path));
      case Text =>
        info := ReadText(env, base.(kind := Kind.Text), ReadBytes(fs, p, path));
      case Markdown =>
        info := MarkdownInfo(env, base.(kind := Markdown), ReadBytes(fs, p, path));
      case Sqlite =>
        info := ReadSqlite(env, base.(kind := Sqlite), ReadBytes(fs, p, path));
      case Unknown =>
        info := base.(kind := Unknown, content := Some("File type not supported: " + path));
      case Zip =>
        assert false;
    }
  }

  /** The zip branch: makedirs, extractall, listdir, then one record per listed name. */
  method ExtractZip(env: Env, tmp: string, fs: Node, p: Path, base: FileInfo, ghost H: nat) returns (r: Result<(Node, FileInfo)>)
    requires 1 <= |p| <= H && Height(fs) <= H && WF(fs)
    ensures r == ExtractArchive(env, tmp, fs, p, base, H)
    decreases H + 1 - |p|, 0
  {
    var parent := p[..|p| - 1];
    var node := Get(fs, p);
    if !(node.Some? && node.value.Archive?) {
      return Err(if MakedirsFails(fs, parent) then FileExists else NotAnArchive(node, base.path));
    }
    GetHeight(fs, p);
    ExtractIntoHeight(fs, parent, node.value.members, H);
    ExtractIntoWF(fs, parent, node.value.members);
    var extracted := ExtractInto(fs, parent, node.value.members);
    if extracted.Err? {
      return Err(extracted.msg);
    }
    var x := ExtractDir(p);
    var names := ListDir(extracted.value, x);
    var cur := extracted.value;
    var members: seq<Member> := [];
    var i := 0;
    PrependedNone(ExtractMembers(env, tmp, cur, x, names, H));
    assert names[i..] == names;
    while i < |names|
      invariant 0 <= i <= |names| && Height(cur) <= H && WF(cur)
      invariant ExtractMembers(env, tmp, extracted.value, x, names, H)
                == Prepended(members, ExtractMembers(env, tmp, cur, x, names[i..], H))
    {
      ghost var before := members;
      MembersStep(env, tmp, cur, x, names[i..], H);
      assert names[i..][0] == names[i] && names[i..][1..] == names[i + 1..];
      var sub := ExtractFileInfo(env, tmp, cur, x + [names[i]], H);
      if sub.Err? {
        return Err(sub.msg);
      }
      PrependedAssoc(members, [Member(names[i], sub.value.1)], ExtractMembers(env, tmp, sub.value.0, x, names[i + 1..], H));
      cur := sub.value.0;
      members := members + [Member(names[i], sub.value.1)];
      i := i + 1;
    }
    assert names[i..] == [];
    assert members + [] == members;
    return Ok((cur, base.(content := Some(env.reprMembers(members)), extractedFiles := Some(names),
                          extractedContent := Some(members))));
  }

  lemma PrependedNone(r: Result<(Node, seq<Member>)>)
    ensures Prepended([], r) == r
  {
    if r.Ok? { assert [] + r.value.1 == r.value.1; }
  }

  lemma PrependedAssoc(a: seq<Member>, b: seq<Member>, r: Result<(Node, seq<Member>)>)
    ensures Prepended(a, Prepended(b, r)) == Prepended(a + b, r)
  {
    if r.Ok? { assert a + (b + r.value.1) == (a + b) + r.value.1; }
  }

  /** One step of the listing loop. */
  lemma MembersStep(env: Env, tmp: string, fs: Node, x: Path, names: seq<string>, H: nat)
    requires |x| + 1 <= H && Height(fs) <= H && WF(fs) && names != []
    ensures var e := Extract(env, tmp, fs, x + [names[0]], H);
      ExtractMembers(env, tmp, fs, x, names, H) ==
        if e.Err? then Err(e.msg)
        else Prepended([Member(names[0], e.value.1)], ExtractMembers(env, tmp, e.value.0, x, names[1..], H))
  {
  }

  /** The text branch with its `for enc in encodings: ... break ... else` loop. */
  method ReadText(env: Env, base: FileInfo, rb: Result<Bytes>) returns (info: FileInfo)
    ensures info == TextInfo(env, base, rb)
  {
    info := base;
    var first := DetectedAttempt(env, rb);
    if first.Ok? {
      info := info.(content := Some(Truncate(first.value, 10000)), data := Decoded(first.value));
      return;
    }
    var encodings := Fallbacks;
    var i := 0;
    while i < |encodings|
      invariant 0 <= i <= |encodings|
      invariant FirstDecoding(env, rb, encodings) == FirstDecoding(env, rb, encodings[i..])
    {
      assert encodings[i..][0] == encodings[i] && encodings[i..][1..] == encodings[i + 1..];
      var attempt := Attempt(env, rb, encodings[i]);
      if attempt.Ok? {
        info := info.(content := Some(Truncate(attempt.value, 10000)), data := Decoded(attempt.value),
                      encoding := Some(encodings[i]));
        return;
      }
      i := i + 1;
    }
    assert encodings[i..] == [];
    info := info.(error := Some(first.msg));
  }

  /** The sqlite branch with its loop over the tables. */
  method ReadSqlite(env: Env, base: FileInfo, rb: Result<Bytes>) returns (info: FileInfo)
    ensures info == SqliteInfo(env, base, rb)
  {
    if rb.Err? {
      return base.(error := Some(CannotOpenDb));
    }
    var db := env.openDb(rb.value);
    if db.Err? {
      return base.(error := Some(db.msg));
    }
    var ts := db.value.tables;
    var tableData: seq<DbTable> := [];
    var i := 0;
    while i < |ts|
      invariant 0 <= i <= |ts| && |tableData| == i
      invariant forall k :: 0 <= k < i ==> BareName(ts[k].name) && tableData[k] == Sample(ts[k])
    {
      if !BareName(ts[i].name) {
        return base.(error := Some(SyntaxError(ts[i].name)));
      }
      var rows := if |ts[i].rows| <= 5 then ts[i].rows else ts[i].rows[..5];
      tableData := tableData + [DbTable(ts[i].name, ts[i].columns, rows)];
      i := i + 1;
    }
    assert tableData == Samples(ts);
    return base.(data := Tables(tableData), content := Some(env.reprTables(tableData)));
  }
}
