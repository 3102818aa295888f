# Assignment solver: file processor and request handler, in Dafny

The assignment solver is a Django service. It answers a course-assignment question, and the
question may come with an uploaded file. This project models the two classes that do the work:

- `FileProcessor` turns an uploaded file into a record (`file_info`). The record gives the file's
  type, a text preview, the parsed data, and, for a zip archive, the records of the files the archive
  extracts to. The recursion into a zip goes through every member, so nested archives are handled.
- `FileProcessor.process` runs an `if`/`elif` chain of hard-coded question rules (A to I) on that
  record. When the chosen rule produces nothing, the answer is a placeholder.
- `RequestHandler` extracts the upload and answers a question about the `answer` column of a csv
  directly. Anything else goes to a language model behind the AI Proxy. A failure of the proxy
  becomes an answer of its own (`"Error: ..."`).

Modules, one per file:

| file | module | what it holds |
|---|---|---|
| `wrappers.dfy` | `Wrappers` | `Option`, `Result` (a raised exception is `Err` with its message) |
| `py_strings.dfy` | `PyStrings` | the Python string operations the code relies on: `strip`, `splitlines`, `lower`, `in`, `endswith`, `join`, `re.sub(r'\s+', ' ', ·)`, `split()`, `int()`, `str(int)` |
| `scratch.dfy` | `Scratch` | the temporary directory as a tree value, with `os.makedirs(exist_ok=True)`, `ZipFile.extractall` and `os.listdir` |
| `records.dfy` | `Records` | `file_info` and its payloads; the foreign libraries as an environment of functions |
| `extraction.dfy` | `Extraction` | `extract_file_info`: a specification by functions, and methods with its loops proved against it |
| `markdown.dfy` | `Markdown` | `_format_markdown` and its line-by-line rules |
| `replacement.dfy` | `Replacement` | `_process_file_replacement`: the case-insensitive `IITM` → `IIT Madras` rewrite and the digest |
| `rules.dfy` | `Rules` | `process`: the rule chain, rule bodies and placeholder |
| `handler.dfy` | `RequestHandling` | `RequestHandler` as a class: token, direct answer, prompt, proxy query, dispatch |

Calls into code the model cannot see are parameters, not modelled behaviour:

- chardet, codecs other than latin1, pandas, `json`, the contents of an SQLite file, BeautifulSoup,
  sha256, and `str()` of dictionaries are fields of `Records.Env`.
- The HTTP round trip to the proxy is a function `RequestHandling.Ask`.

Two behaviours one might expect of the system do not hold of the code, and the model follows the code:

- Rule A does not find the `answer` column of a csv inside a zip that is itself inside the zip. The
  code reads only the direct members of `extracted_content`. `Rules.UnzipAnswerFirst` shows that a
  nested record never contributes. Nested records are of type `zip` and hold no `data`.
- prettier's output is idempotent; this imitation of it is not, in two ways:
  - `"#   "` formats to `"# "`, which then formats to `"#"` (`Markdown.BlankHeadingExample`).
  - A blank last line is dropped in the second round (`Markdown.EmptyLastLineExample`).

  `Markdown.FormatLineIdempotent` and `Markdown.FormatDocIdempotent` state exactly when it is idempotent.

## Model

| member | source | states |
|---|---|---|
| Extraction.Classify | assignment_solver/solver/services/processors/file_processor.py:177-313 | the `endswith` chain: a path is `unknown` exactly when it ends with none of the twelve recognised suffixes |
| Extraction.ClassifyBySuffix | assignment_solver/solver/services/processors/file_processor.py:177-313 | the record type is `zip`, `csv`, `json`, `text` (`.txt`/`.log`), `html` (`.html`/`.htm`), `markdown` or `sqlite` exactly when the path ends with that type's suffixes, and `unknown` exactly when it ends with none of them |
| Extraction.UpperCaseUnknown | assignment_solver/solver/services/processors/file_processor.py:177-313 | the suffix test is case-sensitive: a path ending in an upper-case letter, such as `X.CSV` or `REPORT.ZIP`, is `unknown` |
| Extraction.ClassifyComponent | assignment_solver/solver/services/processors/file_processor.py:192-193 | a member's type depends on its own name only, not on the directory it was extracted to |
| Extraction.Extract | assignment_solver/solver/services/processors/file_processor.py:158-315 | a record keeps the path, takes the base name and the suffix type, and has the shape its type promises; only a zip can raise; a file that is not a zip leaves the tree unchanged; the tree stays well-formed and within its height bound |
| Extraction.ExtractFileInfo | assignment_solver/solver/services/processors/file_processor.py:158-315 | the method computes the record and the new tree that `Extract` specifies |
| Extraction.ExtractArchive | assignment_solver/solver/services/processors/file_processor.py:177-197 | the zip branch keeps path, name and type, and its record is shaped (members listed, no `data`) |
| Extraction.ExtractMembers | assignment_solver/solver/services/processors/file_processor.py:190-195 | one member per listed name, in listing order, each with the record of `<extract dir>/<name>` |
| Extraction.ExtractZip | assignment_solver/solver/services/processors/file_processor.py:177-197 | the loop over the listing computes `ExtractArchive`, and an exception in any member stops it |
| Extraction.ArchiveRecord | assignment_solver/solver/services/processors/file_processor.py:177-197 | `extracted_files` has no repeated name; it keeps every entry the extract directory already held, in order; it includes every top-level archive member; `extracted_content` pairs each name with a record of its suffix type; `content` is the text of that dictionary |
| Extraction.ExtractedListing | assignment_solver/solver/services/processors/file_processor.py:179-186 | after `makedirs` and `extractall`, the listing of `<dir>/extracted` is duplicate-free, keeps the old entries as a prefix and contains every archive member |
| Extraction.MemberKinds | assignment_solver/solver/services/processors/file_processor.py:191-194 | the type of each member record is the type of its listed name |
| Extraction.ExtractLeaf | assignment_solver/solver/services/processors/file_processor.py:199-313 | the method for the non-zip branches computes `LeafInfo` with the suffix type |
| Extraction.LeafInfo | assignment_solver/solver/services/processors/file_processor.py:199-313 | a non-zip branch never changes path, name or type |
| Extraction.LeafShaped | assignment_solver/solver/services/processors/file_processor.py:199-313 | every non-zip branch yields a shaped record: a csv record has a table and its columns, or neither; a text-like record has its decoded text or nothing |
| Extraction.CsvInfo | assignment_solver/solver/services/processors/file_processor.py:200-221 | the csv branch keeps path, name and type; either it records an error and changes nothing else, or it sets the table, its columns and the preview; an unreadable file records the error of both reads |
| Extraction.CsvRecord | assignment_solver/solver/services/processors/file_processor.py:200-221 | csv: a read with the detected encoding is tried first, then cp1252; `error` is set exactly when neither read succeeds, and then joins both messages; on success, `data`, `columns` and the 20-row preview agree |
| Extraction.JsonInfo | assignment_solver/solver/services/processors/file_processor.py:224-232 | the json branch keeps path, name and type; either it records an error and changes nothing else, or it sets the loaded value and an excerpt of at most 2000 characters |
| Extraction.JsonRecord | assignment_solver/solver/services/processors/file_processor.py:224-232 | json: the loaded value is kept exactly when the file reads and parses; the content is then the first 2000 characters of the indented dump (all of it when shorter); otherwise the read or parse error is recorded and nothing else changes |
| Extraction.TextInfo | assignment_solver/solver/services/processors/file_processor.py:235-265 | the text/html branch keeps path, name and type; either it records an error and changes nothing else, or it sets the decoded text and, as content, its first 10000 characters |
| Extraction.TextRecord | assignment_solver/solver/services/processors/file_processor.py:235-265 | text/html: `error` is set exactly when the file cannot be read; the content is the first 10000 characters of the decoded text; `encoding` is set exactly when the detected encoding failed, and it is one of utf-8, cp1252, latin1 |
| Extraction.FallbackStopsAtLatin1 | assignment_solver/solver/services/processors/file_processor.py:253-265 | the fallback loop takes utf-8, else cp1252, else latin1, which always decodes, so utf-16 is never reached and the `else` branch cannot run for a readable file |
| Extraction.FirstDecoding | assignment_solver/solver/services/processors/file_processor.py:254-263 | the loop's result decodes with the encoding it names, and no result means every encoding failed |
| Extraction.ReadText | assignment_solver/solver/services/processors/file_processor.py:235-265 | the method with the `for`/`else` loop computes `TextInfo` |
| Extraction.MarkdownInfo | assignment_solver/solver/services/processors/file_processor.py:268-276 | the markdown branch keeps path, name and type; either it records an error and changes nothing else, or the whole text is both content and data |
| Extraction.MarkdownRecord | assignment_solver/solver/services/processors/file_processor.py:268-276 | markdown: utf-8 only; the whole text is both content and data, or the decode error is recorded |
| Extraction.Introspect | assignment_solver/solver/services/processors/file_processor.py:288-302 | the loop pastes each table name unquoted into `PRAGMA table_info(...)` and `SELECT * ... LIMIT 5`: it succeeds exactly when every listed name is a bare identifier, and then samples every table; otherwise the error names the first table, in listing order, whose name is not |
| Extraction.SqliteInfo | assignment_solver/solver/services/processors/file_processor.py:279-308 | the sqlite branch keeps path, name and type; either it records an error and changes nothing else, or it sets the samples of all listed tables, which happens only when the file is a database and every table name is a bare identifier |
| Extraction.Samples | assignment_solver/solver/services/processors/file_processor.py:289-302 | one sample per table, same name and columns, the first at most 5 rows in storage order |
| Extraction.ReadSqlite | assignment_solver/solver/services/processors/file_processor.py:279-308 | the method with the loop over tables computes `SqliteInfo` |
| Extraction.Detected | assignment_solver/solver/services/processors/file_processor.py:204-206 | the detected encoding, or utf-8 when chardet finds none; never empty |
| Scratch.EnsureExtractDir | assignment_solver/solver/services/processors/file_processor.py:180 | `makedirs(exist_ok=True)` leaves a directory named `extracted`, or raises when a file has that name |
| Scratch.ExtractIntoWF | assignment_solver/solver/services/processors/file_processor.py:180-183 | extraction keeps every directory free of duplicate names |
| Scratch.ExtractIntoHeight | assignment_solver/solver/services/processors/file_processor.py:180-183 | extraction adds at most the height of the archive's members under the archive's directory |
| Scratch.ExtractIntoListing | assignment_solver/solver/services/processors/file_processor.py:180-186 | after extraction, the extract directory's listing extends the old one and names every top-level member |
| Scratch.MergeAllNames | assignment_solver/solver/services/processors/file_processor.py:182-183 | `extractall` keeps existing names in place and adds each member's name |
| Markdown.FormatLine | assignment_solver/solver/services/processors/file_processor.py:322-346 | no contract of its own: a heading keeps its hashes, one space, the stripped rest; a list item keeps its indent and marker, one space, the stripped rest; a quote becomes `> ` and the stripped rest; any other line has its whitespace runs collapsed and is stripped (properties in the rows below) |
| Markdown.FormatDoc | assignment_solver/solver/services/processors/file_processor.py:317-348 | no contract of its own: split into lines, format each, join with newlines (properties in the rows below) |
| Markdown.FormatMarkdown | assignment_solver/solver/services/processors/file_processor.py:317-348 | the method with the loop over lines computes `FormatDoc` |
| Markdown.FormatLinesAt | assignment_solver/solver/services/processors/file_processor.py:322-346 | each output line is the formatting of the input line at the same position |
| Markdown.FormatLineIdempotent | assignment_solver/solver/services/processors/file_processor.py:322-346 | formatting a formatted line again changes it exactly when it is a heading or list marker followed by a single trailing space |
| Markdown.FormatLineNoBreaks | assignment_solver/solver/services/processors/file_processor.py:322-346 | a formatted line contains no line break |
| Markdown.FormatLinesIdempotent | assignment_solver/solver/services/processors/file_processor.py:322-346 | line by line, formatting is idempotent when no output line is a blank heading or list item |
| Markdown.FormatDocIdempotent | assignment_solver/solver/services/processors/file_processor.py:317-348 | the whole document is idempotent when, in addition, the last output line is not empty |
| Markdown.BlankHeadingExample | assignment_solver/solver/services/processors/file_processor.py:324-328 | `"#   "` formats to `"# "`, and that formats to `"#"` |
| Markdown.EmptyLastLineExample | assignment_solver/solver/services/processors/file_processor.py:317-348 | `"a\n "` formats to `"a\n"`, and that formats to `"a"` |
| Markdown.QuoteIdempotent | assignment_solver/solver/services/processors/file_processor.py:339-343 | a formatted blockquote formats to itself |
| Markdown.PlainIdempotent | assignment_solver/solver/services/processors/file_processor.py:346 | a line with runs of spaces collapsed and the ends stripped formats to itself |
| Markdown.CollapseSpaced | assignment_solver/solver/services/processors/file_processor.py:346 | after `re.sub(r'\s+', ' ', ·)` the only whitespace is single spaces |
| Replacement.ReplaceIitm | assignment_solver/solver/services/processors/file_processor.py:358 | the substitution never shortens the text (with the rows below: leaves no match, is the identity exactly without a match, and is idempotent) |
| Replacement.ReplacedClean | assignment_solver/solver/services/processors/file_processor.py:358 | no case-insensitive `IITM` is left after the substitution |
| Replacement.ReplaceIdentity | assignment_solver/solver/services/processors/file_processor.py:358 | the substitution leaves a text unchanged exactly when the text has no match |
| Replacement.ReplaceIdempotent | assignment_solver/solver/services/processors/file_processor.py:358 | substituting twice is substituting once |
| Replacement.MixedCaseExample | assignment_solver/solver/services/processors/file_processor.py:358 | `iItM` and `IITM` inside `xIITM` are both replaced; the match is leftmost and does not overlap |
| Replacement.ReplacedPartsOk | assignment_solver/solver/services/processors/file_processor.py:354-359 | the loop fails exactly when a text or markdown member has no content, and its only failure is the `TypeError` of `re.sub` on `None` |
| Replacement.ReplacedPartsOrder | assignment_solver/solver/services/processors/file_processor.py:354-359 | text and markdown members contribute their replaced content in order; other members contribute nothing |
| Replacement.DigestInputClean | assignment_solver/solver/services/processors/file_processor.py:358-363 | the text joined with newlines and hashed holds no `IITM` in any case |
| Replacement.ReplacementDigest | assignment_solver/solver/services/processors/file_processor.py:350-365 | no contract of its own: the sha256 of the replaced text and markdown contents joined with newlines, or the `TypeError` of a member without content (`Replacement.ReplacedPartsOk`, `Replacement.DigestInputClean`) |
| Replacement.ProcessFileReplacement | assignment_solver/solver/services/processors/file_processor.py:350-365 | the method with the loop over members computes `ReplacementDigest` |
| Rules.Triggers | assignment_solver/solver/services/processors/file_processor.py:49-153 | a condition of rules A to E that holds implies the record has that rule's type (zip, csv, markdown, zip, zip) |
| Rules.QuestionOnly | assignment_solver/solver/services/processors/file_processor.py:109-153 | the conditions of rules F to I depend on the question only, never on the record |
| Rules.FirstTriggered | assignment_solver/solver/services/processors/file_processor.py:49-153 | the rule chosen is the first whose condition holds, and every earlier condition fails |
| Rules.ElifOnlyFirst | assignment_solver/solver/services/processors/file_processor.py:49-156 | only the first triggered rule's body decides: its answer, its exception, or the placeholder |
| Rules.Body | assignment_solver/solver/services/processors/file_processor.py:49-153 | rules F to I answer nothing when the record has the wrong type (html or text, sqlite, zip); rule D never raises |
| Rules.Decide | assignment_solver/solver/services/processors/file_processor.py:49-156 | without a triggered rule the answer is the placeholder; an exception, or an answer other than the placeholder, is that of the first triggered rule's body |
| Rules.NoLaterRule | assignment_solver/solver/services/processors/file_processor.py:49-156 | a triggered rule that produces nothing yields the placeholder, even when a later rule would answer |
| Rules.KeywordRuleWrongKind | assignment_solver/solver/services/processors/file_processor.py:109-153 | when rules F to I win on the question alone and the file has the wrong type, the answer is the placeholder |
| Rules.Process | assignment_solver/solver/services/processors/file_processor.py:21-33 | without a file (or with an unnamed one) the answer is `No file provided` |
| Rules.FirstAnswer | assignment_solver/solver/services/processors/file_processor.py:55 | `str(df['answer'].iloc[0])` succeeds exactly when there is an `answer` column and a row; it is then the first row's cell as pandas prints it (`nan`, or `5.0` in a float64 column); otherwise it raises the `IndexError` or the `KeyError` |
| Rules.AnswerColumn | assignment_solver/solver/services/processors/file_processor.py:58-60 | rule B: the first answer when the table has an `answer` column; nothing when it lacks one or holds no table |
| Rules.FloatAnswerExample | assignment_solver/solver/services/processors/file_processor.py:55-60 | an integer `answer` column with an empty cell is float64, so the answer `5` prints as `5.0` |
| Rules.CsvAnswerRule | assignment_solver/solver/services/processors/file_processor.py:58-60 | rule B on a table with an `answer` column: the first row's value, or the `IndexError` of an empty table |
| Rules.QuotedColumnWording | assignment_solver/solver/services/processors/file_processor.py:58 | the wording `'answer' column` does not trigger rule B |
| Rules.UnzipAnswerFirst | assignment_solver/solver/services/processors/file_processor.py:49-55 | rule A never raises; it answers with the first direct `.csv` member holding a table with an `answer` column; it answers nothing when there is none or no member is a csv |
| Rules.ContentNamed | assignment_solver/solver/services/processors/file_processor.py:77-81 | the content taken is the content of a member with that name, and none when no member has it |
| Rules.LineDiffLines | assignment_solver/solver/services/processors/file_processor.py:73-90 | rule D: nothing when the line counts differ; otherwise the count of differing lines, which is `0` exactly when the files have the same lines |
| Rules.DiffCountZero | assignment_solver/solver/services/processors/file_processor.py:89 | at most one difference per line, and none exactly for equal line lists |
| Rules.LineDiffExample | assignment_solver/solver/services/processors/file_processor.py:73-90 | `x,y,z` against `x,Y,z` answers `1` |
| Rules.TableSum | assignment_solver/solver/services/processors/file_processor.py:102-104 | the inner loop over the three special symbols computes `SymbolsTotal`; the first sum that cannot be added ends it with that error |
| Rules.MemberSum | assignment_solver/solver/services/processors/file_processor.py:98-104 | one member's step of the outer loop computes `MemberTotal`: only csv and text records count, a decoded text raises on `.columns`, and a table without both columns adds nothing |
| Rules.SumSymbolValues | assignment_solver/solver/services/processors/file_processor.py:93-106 | the loop over members and symbols computes `EncodingTotal`, and the first exception ends it |
| Rules.Add | assignment_solver/solver/services/processors/file_processor.py:103-104 | adding to `total_sum` succeeds exactly when both sides are numbers, and then is their sum |
| Rules.SymbolsTotalIsSpecialSum | assignment_solver/solver/services/processors/file_processor.py:100-104 | per member, the three per-symbol sums are the sum over rows whose symbol is one of the three; the sum fails exactly when such a row has a text value |
| Rules.TextMemberRaises | assignment_solver/solver/services/processors/file_processor.py:97-100 | a text member with decoded content makes rule E raise: a `str` has no `columns` |
| Rules.CsvMembersSum | assignment_solver/solver/services/processors/file_processor.py:93-106 | when no member is a text file, the only failure of rule E is adding a text value |
| Rules.DivTotal | assignment_solver/solver/services/processors/file_processor.py:114-116 | the sum succeeds exactly when every `div.foo` element's `data-value` is absent or an integer |
| Rules.Selected | assignment_solver/solver/services/processors/file_processor.py:114 | `select('div.foo')` keeps exactly the `div` elements with class `foo` |
| Rules.Values | assignment_solver/solver/services/processors/file_processor.py:116 | the generator yields every kept element's value, or stops with the error of the first kept element, in document order, whose value is not an integer |
| Rules.DivTotalIsSelectedSum | assignment_solver/solver/services/processors/file_processor.py:114-117 | rule F's total is the sum of the selected elements' values, or the first selected element's error |
| Rules.DivSumExample | assignment_solver/solver/services/processors/file_processor.py:109-117 | `div` elements of class `foo` (also among other classes) are summed by `data-value`, others are skipped: 3 + 5 = 8 |
| Rules.FirstHidden | assignment_solver/solver/services/processors/file_processor.py:120-127 | rule G takes the first hidden `input` in document order, and nothing when there is none |
| Rules.Tickets | assignment_solver/solver/services/processors/file_processor.py:137-141 | `FROM tickets` reads the first relation whose name is `tickets` in any ASCII case: every relation listed before it has another name; when none has that name there is none |
| Rules.GoldQuery | assignment_solver/solver/services/processors/file_processor.py:131-146 | a file that is not a database, a missing `tickets` relation (table or view) or a missing column raises; otherwise the answer is `GoldAnswer`: `None` exactly when no Gold row has a non-NULL `units * price`, else the decimal text of the sum of those products |
| Rules.RuleHIgnoresIntrospection | assignment_solver/solver/services/processors/file_processor.py:130-146 | rule H opens the database again: when extraction recorded an error for a table name that is not a bare identifier, the record is still of type sqlite and rule H's answer is the same |
| Rules.ViewTickets | assignment_solver/solver/services/processors/file_processor.py:137-141 | `FROM tickets` also reads a view named `tickets`, which extraction never lists |
| Rules.SqlSumNull | assignment_solver/solver/services/processors/file_processor.py:138 | SQL `SUM` is `NULL` exactly when every value it is given is `NULL` |
| Rules.SqlSumIsSum | assignment_solver/solver/services/processors/file_processor.py:138 | SQL `SUM`, which skips `NULL` values one at a time, equals the plain sum of the non-`NULL` values, and is `NULL` when there are none |
| Rules.GoldRowsNull | assignment_solver/solver/services/processors/file_processor.py:137-141 | the query's `SUM` is `NULL` exactly when no Gold row has a non-null `units * price` |
| Rules.GoldSumExample | assignment_solver/solver/services/processors/file_processor.py:137-146 | Gold rows 2 x 3 and 4 x 5 (one spelled `gold`) answer `26`; a Silver row and a Gold row with a `NULL` price add nothing |
| Rules.NumericPrefixOfInt | assignment_solver/solver/services/processors/file_processor.py:138 | in `units * price` a text that starts with an integer's decimal form, followed by nothing or a non-digit, counts as that integer |
| Rules.SqliteTextExample | assignment_solver/solver/services/processors/file_processor.py:138 | SQLite reads a text by its numeric prefix: `1_000` counts as 1, `12abc` as 12, and a text starting with a no-break space as 0 |
| Rules.NoGoldAnswersNone | assignment_solver/solver/services/processors/file_processor.py:136-146 | a tickets table without Gold rows answers `None` |
| Rules.GoldTrimExample | assignment_solver/solver/services/processors/file_processor.py:136-146 | `TRIM` removes spaces only: `"  gold "` is Gold, `"\tGOLD"` is not |
| Rules.TrimSpaces | assignment_solver/solver/services/processors/file_processor.py:140 | SQL `TRIM` leaves no space at either end |
| Rules.TrimSpacesSpan | assignment_solver/solver/services/processors/file_processor.py:140 | SQL `TRIM` keeps a middle slice of its argument and removes only spaces around it; with `TrimSpaces`' own contract this fixes the result |
| RequestHandling.TokenFrom | assignment_solver/solver/services/request_handler.py:15 | the token is the setting when that is non-empty, else the environment variable; it is empty exactly when both are empty or absent |
| RequestHandling.DirectAnswer | assignment_solver/solver/services/request_handler.py:54-72 | answers only a csv record and a question naming the answer column; an answer is the first row's `answer` value; an empty table raises `IndexError` |
| RequestHandling.PhraseHasBothWords | assignment_solver/solver/services/request_handler.py:66 | the trigger holds exactly when the question contains both `column` and `answer` |
| RequestHandling.DirectAnswerIsRuleB | assignment_solver/solver/services/request_handler.py:66-68 | when rule B's condition holds, the direct answer is rule B's result |
| RequestHandling.QuotedWordingDirectOnly | assignment_solver/solver/services/request_handler.py:66 | `'answer' column` triggers the direct answer but not rule B's phrase |
| RequestHandling.Prompt | assignment_solver/solver/services/request_handler.py:91-94 | the prompt starts with the question, ends with the instruction to give only the answer, and carries the record's content right after the question when there is a record |
| RequestHandling.PromptInjective | assignment_solver/solver/services/request_handler.py:91-94 | different questions give different prompts |
| RequestHandling.Request | assignment_solver/solver/services/request_handler.py:97-115 | the request goes to the proxy endpoint with the bearer token, `gpt-4o-mini`, the fixed system message and the prompt |
| RequestHandling.Query | assignment_solver/solver/services/request_handler.py:74-129 | no token gives the configuration error; a reply is the model's text stripped; a failure gives `Error: ` and its message |
| RequestHandling.NoTokenNoRequest | assignment_solver/solver/services/request_handler.py:87-88 | without a token the answer does not depend on the proxy at all |
| RequestHandling.Respond | assignment_solver/solver/services/request_handler.py:17-52 | without a file, the model gets the question alone |
| RequestHandling.Uploaded | assignment_solver/solver/services/request_handler.py:32-41 | the record of `<tmp>/<name>` carries the upload's name and its suffix type; only a zip can fail |
| RequestHandling.NonCsvGoesToModel | assignment_solver/solver/services/request_handler.py:41-49 | an upload that is not a csv always reaches the model with its record (or fails in extraction) |
| RequestHandling.OtherQuestionsGoToModel | assignment_solver/solver/services/request_handler.py:44-49 | a question not about the answer column always reaches the model |
| RequestHandling.DirectAnswerWins | assignment_solver/solver/services/request_handler.py:44-49 | a non-empty direct answer is the reply without any query; an empty one goes to the model |
| RequestHandling.RequestHandler.constructor | assignment_solver/solver/services/request_handler.py:11-15 | the handler reads its token once, by `TokenFrom` |
| RequestHandling.RequestHandler.QueryAiproxy | assignment_solver/solver/services/request_handler.py:74-129 | the method computes `Query` with the handler's token |
| RequestHandling.RequestHandler.ProcessRequest | assignment_solver/solver/services/request_handler.py:17-52 | the method computes `Respond`, running the extraction method on the written upload |
| PyStrings.SplitLinesJoin | assignment_solver/solver/services/processors/file_processor.py:84-85 | `splitlines` undoes `'\n'.join` of lines that have no breaks and a non-empty last line |
| PyStrings.StripIsStripped | assignment_solver/solver/services/request_handler.py:124 | `strip` leaves no whitespace at either end |

## Left out

- The HTTP call, `raise_for_status`, `response.json()` and the `choices[0].message.content` lookup are
  one abstract function (`RequestHandling.Ask`). Its error text stands for whatever any of them raised.
- The temporary directories are created and removed by `tempfile.TemporaryDirectory`. The model
  takes the directory's path as a parameter (`tmp`) and starts from an empty directory; removal is not
  modelled.
- The upload is written chunk by chunk. The model writes the whole byte string in one step.
- Django's `settings` and `os.environ` are the two parameters of the constructor.
- chardet, codecs other than latin1, pandas (`read_csv`, `to_string`), `json.load`/`dumps`, the
  sqlite queries, BeautifulSoup parsing, sha256 and `str()` of dictionaries are functions of
  `Records.Env`. The model does not interpret their results.
- `os.listdir` order is unspecified; the model lists entries in creation order.
- An uploaded file's name is one path component (Django reduces it to its base name), and a
  name with a `/` is not modelled.
- `Lower` and `Upper` are ASCII-only; Python's Unicode case mapping is not modelled.
- Table cells are integers, strings or NaN. Floats, booleans and dates in DataFrames are not modelled,
  except that a column of integers with a missing value prints its integers as floats (`5.0`).
  SQLite REAL and BLOB values are not modelled either.
- Integers are unbounded. pandas sums int64 columns with wrap-around (rule E), and large float64
  values print in exponent form. SQLite turns an overflowing `units * price` into REAL, and its
  `SUM` raises `integer overflow` (rule H). None of these 64-bit effects is modelled.
- Extraction.BareName: a table name is taken as a bare identifier when it starts with a letter, `_` or
  a non-ASCII character and continues with letters, digits, `_`, `$` or non-ASCII characters. An SQL
  keyword used as a table name (`order`) is not recognised as failing, and the syntax error's text
  is approximate.
- Rules.Numeric: a text whose numeric prefix goes on with a fraction or an exponent (`1.5`, `2e3`)
  is a REAL in SQLite; the model reads only the whole-number part before the `.` or `e` (1, 2).
  Column affinity, which converts text on insertion, is not modelled: values are taken as stored.
- Rules.GoldQuery: a `SUM` that is not an integer (a REAL result) is not modelled.
- The exception messages of pandas, sqlite3, BeautifulSoup and `int()` are approximations of
  Python's texts. Which branch raises is exact.
- Rules.DataValue: `int()` of a `data-value` accepts an optional sign, digits with single underscores
  between them, and surrounding whitespace. Non-ASCII digits are not modelled.
- Rules.Process: its own contract covers only the case without a file. The behaviour with a file is
  stated by `Rules.ElifOnlyFirst`, `Rules.NoLaterRule` and the per-rule lemmas on `Rules.Decide`.
- The zip archive's format and the `BadZipFile` check are the shape of the tree: an `Archive` node
  opens, and any other node raises.
