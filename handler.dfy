/** `RequestHandler`: the path a question and an optional upload take. An upload is extracted,
    a question about the `answer` column of a csv is answered from the table, and anything else
    goes to the language model behind the AI Proxy, whose failures come back as answers too.
    The rule chain of `FileProcessor.process` is not on this path. */
module RequestHandling {
  import opened Wrappers
  import opened PyStrings
  import opened Scratch
  import opened Records
  import Extraction
  import Rules

  const Endpoint := "https://aiproxy.sanand.workers.dev/openai/v1/chat/completions"
  const ModelName := "gpt-4o-mini"
  const Persona := "You are a helpful assistant for the IIT Madras Online Degree in Data Science. Your task is to answer questions accurately. Provide only the exact answer without any explanations or additional text."
  const NoToken := "Error: AI Proxy token not configured"
  const OnlyTheAnswer := "Provide ONLY the answer, without any explanations or text."

  /** The POST to the proxy: endpoint, bearer token, model, system message and user prompt. */
  datatype Completion = Completion(url: string, token: string, model: string, system: string, user: string)

  /** The proxy round trip: `choices[0].message.content` of the response, or the text of whatever
      the request, `raise_for_status`, `json()` or the lookups raised. */
  type Ask = Completion -> Result<string>

  /** `settings.AIPROXY_TOKEN or os.environ.get("AIPROXY_TOKEN", "")`: an empty setting falls
      through to the environment. */
  function TokenFrom(setting: Option<string>, environ: Option<string>): (t: string)
    ensures t != "" <==> Rules.Truthy(setting) || Rules.Truthy(environ)
    ensures Rules.Truthy(setting) ==> t == setting.value
    ensures !Rules.Truthy(setting) && environ.Some? ==> t == environ.value
  {
    if Rules.Truthy(setting) then setting.value else environ.GetOr("")
  }

  // ---------------------------------------------------------------------------------------------
  // get_direct_answer

  /** `"answer column" in q or "column" in q and "answer" in q` on the lower-cased question. */
  predicate AsksForAnswerColumn(q: string) {
    Rules.Asks(q, "answer column") || (Rules.Asks(q, "column") && Rules.Asks(q, "answer"))
  }

  /** `get_direct_answer`: only a csv record and a question about the answer column; then the first
      row's `answer` value, nothing when the table has no such column or was not read, and the
      IndexError of an empty table, which is not guarded against. */
  function DirectAnswer(q: string, info: FileInfo): (r: Result<Option<string>>)
    ensures !AsksForAnswerColumn(q) || info.kind != Csv ==> r == Ok(None)
    ensures r.Ok? && r.value.Some? ==>
      info.kind == Csv && info.data.Frame? && Rules.FirstAnswer(info.data.table) == Ok(r.value.value)
    ensures AsksForAnswerColumn(q) && info.kind == Csv && info.data.Frame? && "answer" in info.data.table.columns ==>
      r.Ok? == (info.data.table.rows != []) && (r.Err? ==> r.msg == Rules.OutOfBounds)
  {
    if AsksForAnswerColumn(q) && info.kind == Csv then Rules.AnswerColumn(info) else Ok(None)
  }

  /** The phrase "answer column" contains both words, so the direct rule fires exactly when the
      question has "column" and "answer" somewhere. */
  lemma PhraseHasBothWords(q: string)
    ensures AsksForAnswerColumn(q) <==> Rules.Asks(q, "column") && Rules.Asks(q, "answer")
  {
    var s := Lower(q);
    if Rules.Asks(q, "answer column") {
      var i :| 0 <= i <= |s| - 13 && OccursAt(s, "answer column", i);
      assert s[i..i + 6] == s[i..i + 13][..6];
      assert OccursAt(s, "answer", i);
      assert s[i + 7..i + 13] == s[i..i + 13][7..];
      assert OccursAt(s, "column", i + 7);
    }
  }

  /** Where the question has the phrase itself, the direct rule and rule B of the chain agree. */
  lemma DirectAnswerIsRuleB(env: Env, q: string, info: FileInfo, db: Bytes)
    requires Rules.Asks(q, "answer column") && info.kind == Csv
    ensures Rules.Triggers(Rules.CsvAnswer, q, info)
    ensures DirectAnswer(q, info) == Rules.Body(env, Rules.CsvAnswer, info, db)
  {
  }

  lemma OccursIn(s: string, sub: string, i: nat)
    requires i + |sub| <= |s| && s[i..i + |sub|] == sub
    ensures Contains(s, sub)
  {
    assert OccursAt(s, sub, i);
  }

  /** "'answer' column" sets off the direct rule but not rule B, which wants the phrase as is. */
  lemma QuotedWordingDirectOnly()
    ensures Rules.Asks("'answer' column", "column") && Rules.Asks("'answer' column", "answer")
    ensures AsksForAnswerColumn("'answer' column")
    ensures !Rules.Asks("'answer' column", "answer column")
  {
    LowerQuoted();
    QuotedHasBoth();
    Rules.QuotedColumnWording();
  }

  lemma LowerQuoted()
    ensures Lower("'answer' column") == "'answer' column"
  {
    Rules.LowerFixed("'answer' column");
  }

  lemma QuotedHasBoth()
    ensures Contains("'answer' column", "answer") && Contains("'answer' column", "column")
  {
    var s := "'answer' column";
    assert s[1..7] == "answer";
    OccursIn(s, "answer", 1);
    assert s[9..15] == "column";
    OccursIn(s, "column", 9);
  }

  // ---------------------------------------------------------------------------------------------
  // query_aiproxy

  /** The f-string rendering of `file_info['content']`: the text, or "None". */
  function Shown(c: Option<string>): string {
    if c.Some? then c.value else "None"
  }

  /** The user prompt: the question, the record's content when there is a record, and the
      instruction to give only the answer. */
  function Prompt(q: string, info: Option<FileInfo>): (p: string)
    ensures "Question: " + q + "\n\n" <= p
    ensures EndsWith(p, OnlyTheAnswer)
    ensures info.Some? ==> OccursAt(p, "File Content: " + Shown(info.value.content) + "\n\n", |"Question: " + q + "\n\n"|)
    ensures info.None? ==> |p| == |"Question: " + q + "\n\nAnswer the question directly. " + OnlyTheAnswer|
  {
    var head := "Question: " + q + "\n\n";
    if info.Some? then
      var middle := "File Content: " + Shown(info.value.content) + "\n\n";
      var lead := "Answer the question based on the file content. ";
      Layout(head, middle, lead + OnlyTheAnswer);
      EndsWithPart(head + middle + (lead + OnlyTheAnswer), lead, OnlyTheAnswer);
      head + middle + (lead + OnlyTheAnswer)
    else
      var lead := "Answer the question directly. ";
      Layout(head, lead, OnlyTheAnswer);
      head + lead + OnlyTheAnswer
  }

  /** Where the parts of `a + b + c` sit. */
  lemma EndsWithPart(p: string, d: string, c: string)
    requires EndsWith(p, d + c)
    ensures EndsWith(p, c)
  {
    assert p[|p| - |c|..] == p[|p| - |d + c|..][|d|..];
  }

  lemma Layout(a: string, b: string, c: string)
    ensures a <= a + b + c
    ensures (a + b + c)[|a|..|a| + |b|] == b
    ensures EndsWith(a + b + c, c)
  {
    var p := a + b + c;
    assert p[..|a|] == a;
    assert p[|a|..|a| + |b|] == b;
    assert p[|p| - |c|..] == c;
  }

  /** The question can be read back from the prompt: two questions with the same record give the
      same prompt only if they are the same question. */
  lemma PromptInjective(q1: string, q2: string, info: Option<FileInfo>)
    requires Prompt(q1, info) == Prompt(q2, info)
    ensures q1 == q2
  {
    var p := Prompt(q1, info);
    PromptLength(q1, info);
    PromptLength(q2, info);
    QuestionAt(q1, p);
    QuestionAt(q2, p);
  }

  /** Only the question's length varies among prompts for one record. */
  lemma PromptLength(q: string, info: Option<FileInfo>)
    ensures |Prompt(q, info)| == |q| + |Prompt("", info)|
  {
  }

  lemma QuestionAt(q: string, p: string)
    requires "Question: " + q + "\n\n" <= p
    ensures p[10..10 + |q|] == q
  {
    var h := "Question: " + q + "\n\n";
    assert p[..|h|] == h;
    assert h[10..10 + |q|] == q;
  }

  /** The request the handler posts for a token and a prompt. */
  function Request(token: string, prompt: string): (c: Completion)
    ensures c.url == Endpoint && c.model == ModelName && c.system == Persona
    ensures c.token == token && c.user == prompt
  {
    Completion(Endpoint, token, ModelName, Persona, prompt)
  }

  /** `query_aiproxy`: never raises. Without a token it answers with the configuration error and
      posts nothing; otherwise it answers with the model's stripped reply, or with "Error: " and the
      text of whatever failed. */
  function Query(token: string, q: string, info: Option<FileInfo>, ask: Ask): (r: Reply)
    ensures token == "" ==> r.answer == NoToken
    ensures token != "" && ask(Request(token, Prompt(q, info))).Ok? ==>
      r.answer == Strip(ask(Request(token, Prompt(q, info))).value) && Stripped(r.answer)
    ensures token != "" && ask(Request(token, Prompt(q, info))).Err? ==>
      r.answer == "Error: " + ask(Request(token, Prompt(q, info))).msg
  {
    if token == "" then Reply(NoToken)
    else match ask(Request(token, Prompt(q, info)))
      case Ok(t) => StripIsStripped(t); Reply(Strip(t))
      case Err(e) => Reply("Error: " + e)
  }

  /** The token is checked before anything is sent: without one the proxy plays no part. */
  lemma NoTokenNoRequest(q: string, info: Option<FileInfo>, ask1: Ask, ask2: Ask)
    ensures Query("", q, info, ask1) == Query("", q, info, ask2) == Reply(NoToken)
  {
  }

  // ---------------------------------------------------------------------------------------------
  // process_request

  /** `process_request`. Without an upload (a Django file with an empty name is false) the model
      gets the question alone. With one, the upload is written to `<tmp>/<name>` and extracted;
      a non-empty direct answer is returned as is, and otherwise the model gets the question with
      the record. Exceptions from extraction or from the direct rule escape. */
  function Respond(env: Env, tmp: string, token: string, q: string, file: Option<Upload>, ask: Ask): (r: Result<Reply>)
    ensures file.None? || file.value.name == "" ==> r == Ok(Query(token, q, None, ask))
  {
    if file.None? || file.value.name == "" then Ok(Query(token, q, None, ask))
    else
      var u := file.value;
      var fs := Dir([Entry(u.name, Rules.UploadNode(u))]);
      assert WFEntries([Entry(u.name, Rules.UploadNode(u))]);
      match Extraction.Extract(env, tmp, fs, [u.name], Height(fs))
      case Err(e) => Err(e)
      case Ok((_, info)) =>
        match DirectAnswer(q, info)
        case Err(e) => Err(e)
        case Ok(d) => if Rules.Truthy(d) then Ok(Reply(d.value)) else Ok(Query(token, q, Some(info), ask))
  }

  /** The record `process_request` works from for an upload. */
  function Uploaded(env: Env, tmp: string, u: Upload): (r: Result<FileInfo>)
    ensures r.Ok? ==> r.value.name == u.name && r.value.kind == Extraction.Classify(Extraction.PathText(tmp, [u.name]))
    ensures Extraction.Classify(Extraction.PathText(tmp, [u.name])) != Zip ==> r.Ok?
  {
    var fs := Dir([Entry(u.name, Rules.UploadNode(u))]);
    assert WFEntries([Entry(u.name, Rules.UploadNode(u))]);
    match Extraction.Extract(env, tmp, fs, [u.name], Height(fs))
    case Err(e) => Err(e)
    case Ok((_, info)) => Ok(info)
  }

  /** With an upload, `process_request` is the direct rule on the uploaded record, then the model. */
  lemma RespondToUpload(env: Env, tmp: string, token: string, q: string, u: Upload, ask: Ask)
    requires u.name != ""
    ensures Uploaded(env, tmp, u).Err? ==> Respond(env, tmp, token, q, Some(u), ask) == Err(Uploaded(env, tmp, u).msg)
    ensures Uploaded(env, tmp, u).Ok? ==>
      var info := Uploaded(env, tmp, u).value;
      Respond(env, tmp, token, q, Some(u), ask) ==
        match DirectAnswer(q, info)
        case Err(e) => Err(e)
        case Ok(d) => if Rules.Truthy(d) then Ok(Reply(d.value)) else Ok(Query(token, q, Some(info), ask))
  {
  }

  /** An upload that is not a csv never gets a direct answer: the model is asked with its record. */
  lemma NonCsvGoesToModel(env: Env, tmp: string, token: string, q: string, u: Upload, ask: Ask)
    requires u.name != "" && Extraction.Classify(Extraction.PathText(tmp, [u.name])) != Csv
    ensures Uploaded(env, tmp, u).Err? ==> Respond(env, tmp, token, q, Some(u), ask) == Err(Uploaded(env, tmp, u).msg)
    ensures Uploaded(env, tmp, u).Ok? ==>
      Respond(env, tmp, token, q, Some(u), ask) == Ok(Query(token, q, Some(Uploaded(env, tmp, u).value), ask))
  {
    RespondToUpload(env, tmp, token, q, u, ask);
  }

  /** A question that does not ask about the answer column always reaches the model (or fails
      in extraction). */
  lemma OtherQuestionsGoToModel(env: Env, tmp: string, token: string, q: string, u: Upload, ask: Ask)
    requires u.name != "" && !AsksForAnswerColumn(q)
    ensures Uploaded(env, tmp, u).Ok? ==>
      Respond(env, tmp, token, q, Some(u), ask) == Ok(Query(token, q, Some(Uploaded(env, tmp, u).value), ask))
  {
    RespondToUpload(env, tmp, token, q, u, ask);
  }

  /** A non-empty direct answer is the reply, whatever the token and the model would say; an
      empty one is not (it is false in Python) and the model is asked. */
  lemma DirectAnswerWins(env: Env, tmp: string, token: string, q: string, u: Upload, ask: Ask)
    requires u.name != "" && Uploaded(env, tmp, u).Ok?
    requires DirectAnswer(q, Uploaded(env, tmp, u).value).Ok?
    ensures var d := DirectAnswer(q, Uploaded(env, tmp, u).value).value;
      Respond(env, tmp, token, q, Some(u), ask) ==
        if d.Some? && d.value != "" then Ok(Reply(d.value)) else Ok(Query(token, q, Some(Uploaded(env, tmp, u).value), ask))
  {
    RespondToUpload(env, tmp, token, q, u, ask);
  }

  /** `RequestHandler`: the token is read once, at construction; the file processor is stateless
      and stands here as the environment of libraries it calls. */
  class RequestHandler {
    const env: Env
    const aiproxyToken: string

    constructor(env: Env, setting: Option<string>, environ: Option<string>)
      ensures this.env == env && aiproxyToken == TokenFrom(setting, environ)
    {
      this.env := env;
      aiproxyToken := TokenFrom(setting, environ);
    }

    /** `query_aiproxy(question, file_info)`. */
    method QueryAiproxy(q: string, info: Option<FileInfo>, ask: Ask) returns (r: Reply)
      ensures r == Query(aiproxyToken, q, info, ask)
      ensures aiproxyToken == "" ==> r.answer == NoToken
    {
      if aiproxyToken == "" {
        return Reply(NoToken);
      }
      var prompt := Prompt(q, info);
      var response := ask(Request(aiproxyToken, prompt));
      match response {
        case Ok(t) =>
          r := Reply(Strip(t));
        case Err(e) =>
          r := Reply("Error: " + e);
      }
    }

    /** `process_request(question, file)`. */
    method ProcessRequest(tmp: string, q: string, file: Option<Upload>, ask: Ask) returns (r: Result<Reply>)
      ensures r == Respond(env, tmp, aiproxyToken, q, file, ask)
    {
      if file.None? || file.value.name == "" {
        var reply := QueryAiproxy(q, None, ask);
        return Ok(reply);
      }
      var u := file.value;
      var fs := Dir([Entry(u.name, Rules.UploadNode(u))]);
      assert WFEntries([Entry(u.name, Rules.UploadNode(u))]);
      var extracted := Extraction.ExtractFileInfo(env, tmp, fs, [u.name], Height(fs));
      if extracted.Err? {
        return Err(extracted.msg);
      }
      var info := extracted.value.1;
      var direct := DirectAnswer(q, info);
      if direct.Err? {
        return Err(direct.msg);
      }
      if direct.value.Some? && direct.value.value != "" {
        return Ok(Reply(direct.value.value));
      }
      var reply := QueryAiproxy(q, Some(info), ask);
      r := Ok(reply);
    }
  }
}
