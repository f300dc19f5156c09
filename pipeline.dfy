/** `main` and `_upload_with_sas`: the request handler that chains the
    multipart extraction, the score reader, the scorecard, the template
    filler and the merge, then publishes the two artifacts and answers with
    their signed links. Every library the handler calls is a field of `Libs`;
    the clock reading and the environment are inputs. */
module Pipeline {
  import opened Wrappers
  import opened Values
  import opened PyDict
  import Multipart
  import ScoreTable
  import Scorecard
  import TemplateFill
  import PdfMerge
  import ArtifactNames

  /** The libraries the handler calls, as functions of their inputs. */
  datatype Libs = Libs(
    /** `pd.read_excel(..., sheet_name=...)`: the worksheet, or the error raised. */
    loadSheet: (Bytes, string) -> Result<ScoreTable.Worksheet, string>,
    /** `str(v)` and `float(v)` on worksheet cells. */
    cells: ScoreTable.CellReader,
    /** `round(s, 2)` */
    round2: Float -> Float,
    /** `f"{v:.2f}"` */
    fmt2: Float -> string,
    /** The scorecard PDF built from the title, the table and the tagline. */
    render: (string, seq<Scorecard.TableRow>, string) -> Bytes,
    /** `Document(...)`: the tables of a .docx, or the error raised. */
    loadDocx: Bytes -> Result<seq<TemplateFill.Table>, string>,
    /** `doc.save(...)` with the tables as they now are. */
    saveDocx: seq<TemplateFill.Table> -> Bytes,
    /** `PdfReader(...).pages`, or the error raised. */
    readPdf: Bytes -> Result<seq<PdfMerge.Page>, string>,
    /** `writer.write(...)` */
    writePdf: seq<PdfMerge.Page> -> Bytes,
    /** `BlobServiceClient.from_connection_string`, `get_container_client`
        and `container.upload_blob(name, data, overwrite=True)` into a
        container: `None` when the blob was stored, else the error the first
        of them raised. */
    uploadBlob: (string, string, Bytes) -> Option<string>,
    /** `bsc.credential.account_key` and `generate_blob_sas(...)` for an
        account, a container and a blob: the token, or the error raised (for
        instance when the connection string carries no account key). */
    sign: (string, string, string) -> Result<string, string>)

  /** The environment: the connection string (empty when unset), the account
      it names and the container (`BLOB_CONTAINER`, by default "reports"). */
  datatype Config = Config(connectionString: string, account: string, container: string)

  const ConnectionStringVar := "AZURE_STORAGE_CONNECTION_STRING"
  const ContainerVar := "BLOB_CONTAINER"
  const DefaultContainer := "reports"
  const ExcelField := "excel"
  const TemplateField := "word_template"
  const CoverField := "cover_pdf"
  const NarrativeField := "narrative_pdf"
  const MissingInputError := "Missing 'excel' or 'word_template'"
  const NotConfiguredError := "AZURE_STORAGE_CONNECTION_STRING not configured."

  /** The response body: a text message, or the JSON object with the two links. */
  datatype ResponseBody = PlainText(text: string) | UrlPair(pdfUrl: string, narrativeDocxUrl: string)

  datatype Response = Response(status: nat, body: ResponseBody)

  /** The two artifacts: the merged report PDF and the filled .docx. */
  datatype Artifacts = Artifacts(report: Bytes, narrative: Bytes)

  /** What one request produces: the response and the blobs written, in order. */
  datatype Outcome = Outcome(response: Response, writes: seq<(string, Bytes)>)

  /** `os.environ.get(name, default)` */
  function EnvGet(env: map<string, string>, name: string, default: string): string {
    if name in env then env[name] else default
  }

  /** Lines 14-15, with the account name the client reads from the
      connection string. */
  function ConfigOf(env: map<string, string>, accountOf: string -> string): Config {
    var conn := EnvGet(env, ConnectionStringVar, "");
    Config(conn, accountOf(conn), EnvGet(env, ContainerVar, DefaultContainer))
  }

  /** `value["content"] if value else None` */
  function ContentOf(part: Option<Multipart.FilePart>): Option<Bytes> {
    match part
    case Some(p) => Some(p.content)
    case None => None
  }

  /** Lines 154-160: scores, scorecard, filled template and merged report. */
  function Build(excel: Bytes, template: Bytes, cover: Option<Bytes>, narrative: Option<Bytes>, libs: Libs): Result<Artifacts, string> {
    var ws :- libs.loadSheet(excel, ScoreTable.SheetName);
    var scores :- ScoreTable.ScoresOf(ws, libs.cells);
    var scoreMap := FromItems(Zip(scores.cats, scores.scores));
    var table := Scorecard.ScorecardTable(scores.cats, scores.scores, scores.overall, libs.round2);
    var scorecardPdf := libs.render(Scorecard.TitleText, table, Scorecard.Tagline);
    var doc :- libs.loadDocx(template);
    var filled :- TemplateFill.FillDocument(doc, scoreMap, libs.fmt2);
    var merged :- PdfMerge.MergedBytes(cover, scorecardPdf, narrative, libs.readPdf, libs.writePdf);
    Success(Artifacts(merged, libs.saveDocx(filled)))
  }

  /** Lines 144-160: `None` when a required field is missing. */
  function Assemble(req: Multipart.Request, libs: Libs): Result<Option<Artifacts>, string> {
    var files :- Multipart.ParseRequest(req);
    var excel := Get(files, ExcelField);
    var template := Get(files, TemplateField);
    if excel.None? || template.None? then Success(None)
    else
      var a :- Build(excel.value.content, template.value.content,
                     ContentOf(Get(files, CoverField)), ContentOf(Get(files, NarrativeField)), libs);
      Success(Some(a))
  }

  /** The link returned for a blob. */
  function SasUrl(account: string, container: string, name: string, sas: string): string {
    "https://" + account + ".blob.core.windows.net/" + container + "/" + name + "?" + sas
  }

  /** Whether `_upload_with_sas` gets as far as storing the blob. */
  predicate Stored(cfg: Config, libs: Libs, name: string, data: Bytes) {
    cfg.connectionString != "" && libs.uploadBlob(cfg.container, name, data).None?
  }

  /** The write one upload makes: the blob once stored, even when signing
      fails afterwards. */
  function UploadWrites(cfg: Config, libs: Libs, name: string, data: Bytes): seq<(string, Bytes)> {
    if Stored(cfg, libs, name, data) then [(name, data)] else []
  }

  /** `_upload_with_sas`: the signed link, or the error raised. */
  function Upload(cfg: Config, libs: Libs, name: string, data: Bytes): Result<string, string> {
    if cfg.connectionString == "" then Failure(NotConfiguredError)
    else
      match libs.uploadBlob(cfg.container, name, data)
      case Some(e) => Failure(e)
      case None =>
        var sas :- libs.sign(cfg.account, cfg.container, name);
        Success(SasUrl(cfg.account, cfg.container, name, sas))
  }

  function ErrorResponse(message: string): Response {
    Response(500, PlainText(message))
  }

  /** Lines 161-167 once the artifacts exist: both uploads, in order, and
      the writes each successful one made. */
  function PublishOutcome(cfg: Config, libs: Libs, ts: string, a: Artifacts): Outcome {
    var pdfName := ArtifactNames.ReportName(ts);
    var docxName := ArtifactNames.NarrativeName(ts);
    var first := UploadWrites(cfg, libs, pdfName, a.report);
    match Upload(cfg, libs, pdfName, a.report)
    case Failure(e) => Outcome(ErrorResponse(e), first)
    case Success(pdfUrl) =>
      var both := first + UploadWrites(cfg, libs, docxName, a.narrative);
      match Upload(cfg, libs, docxName, a.narrative)
      case Failure(e) => Outcome(ErrorResponse(e), both)
      case Success(docxUrl) => Outcome(Response(200, UrlPair(pdfUrl, docxUrl)), both)
  }

  /** Reference outcome of `main`. */
  function Run(req: Multipart.Request, cfg: Config, libs: Libs, now: ArtifactNames.DateTime): Outcome {
    match Assemble(req, libs)
    case Failure(e) => Outcome(ErrorResponse(e), [])
    case Success(None) => Outcome(Response(400, PlainText(MissingInputError)), [])
    case Success(Some(a)) => PublishOutcome(cfg, libs, ArtifactNames.Timestamp(now), a)
  }

  /** The storage container: blobs by name. */
  class BlobContainer {
    var blobs: map<string, Bytes>

    constructor (initial: map<string, Bytes>)
      ensures blobs == initial
    {
      blobs := initial;
    }

    /** `upload_blob(name, data, overwrite=True)` once it has succeeded. */
    method Store(name: string, data: Bytes)
      modifies this
      ensures blobs == old(blobs)[name := data]
    {
      blobs := blobs[name := data];
    }
  }

  /** The container after a sequence of writes, later writes replacing earlier. */
  function Publish(blobs: map<string, Bytes>, writes: seq<(string, Bytes)>): map<string, Bytes>
    decreases |writes|
  {
    if writes == [] then blobs
    else Publish(blobs[writes[0].0 := writes[0].1], writes[1..])
  }

  method UploadWithSas(cfg: Config, libs: Libs, name: string, data: Bytes, store: BlobContainer)
    returns (r: Result<string, string>)
    modifies store
    ensures r == Upload(cfg, libs, name, data)
    ensures store.blobs == Publish(old(store.blobs), UploadWrites(cfg, libs, name, data))
  {
    PublishOne(store.blobs, name, data);
    if cfg.connectionString == "" {
      return Failure(NotConfiguredError);
    }
    var err := libs.uploadBlob(cfg.container, name, data);
    if err.Some? {
      return Failure(err.value);
    }
    store.Store(name, data);
    var sas := libs.sign(cfg.account, cfg.container, name);
    if sas.Failure? {
      return Failure(sas.error);
    }
    r := Success(SasUrl(cfg.account, cfg.container, name, sas.value));
  }

  method BuildArtifacts(excel: Bytes, template: Bytes, cover: Option<Bytes>, narrative: Option<Bytes>, libs: Libs)
    returns (r: Result<Artifacts, string>)
    ensures r == Build(excel, template, cover, narrative, libs)
  {
    var ws := libs.loadSheet(excel, ScoreTable.SheetName);
    if ws.Failure? {
      return Failure(ws.error);
    }
    var scores := ScoreTable.ReadScores(ws.value, libs.cells);
    if scores.Failure? {
      return Failure(scores.error);
    }
    var s := scores.value;
    var scoreMap := FromItems(Zip(s.cats, s.scores));
    var table := Scorecard.BuildScorecardData(s.cats, s.scores, s.overall, libs.round2);
    var scorecardPdf := libs.render(Scorecard.TitleText, table, Scorecard.Tagline);
    var doc := libs.loadDocx(template);
    if doc.Failure? {
      return Failure(doc.error);
    }
    var filled := TemplateFill.FillWordScores(doc.value, scoreMap, libs.fmt2);
    if filled.Failure? {
      return Failure(filled.error);
    }
    var filledBytes := libs.saveDocx(filled.value);
    var merged := PdfMerge.MergePdfs(cover, scorecardPdf, narrative, libs.readPdf, libs.writePdf);
    if merged.Failure? {
      return Failure(merged.error);
    }
    r := Success(Artifacts(merged.value, filledBytes));
  }

  /** Lines 161-167: the two uploads and the answer. */
  method PublishArtifacts(cfg: Config, libs: Libs, ts: string, a: Artifacts, store: BlobContainer)
    returns (resp: Response)
    modifies store
    ensures resp == PublishOutcome(cfg, libs, ts, a).response
    ensures store.blobs == Publish(old(store.blobs), PublishOutcome(cfg, libs, ts, a).writes)
  {
    var pdfName := ArtifactNames.ReportName(ts);
    var docxName := ArtifactNames.NarrativeName(ts);
    ghost var first := UploadWrites(cfg, libs, pdfName, a.report);
    var pdfUrl := UploadWithSas(cfg, libs, pdfName, a.report, store);
    if pdfUrl.Failure? {
      return ErrorResponse(pdfUrl.error);
    }
    ghost var second := UploadWrites(cfg, libs, docxName, a.narrative);
    var docxUrl := UploadWithSas(cfg, libs, docxName, a.narrative, store);
    PublishAppend(old(store.blobs), first, second);
    if docxUrl.Failure? {
      return ErrorResponse(docxUrl.error);
    }
    resp := Response(200, UrlPair(pdfUrl.value, docxUrl.value));
  }

  /** `main`: answers the request and leaves the container as the writes
      `Run` lists would. */
  method HandleRequest(req: Multipart.Request, cfg: Config, libs: Libs, now: ArtifactNames.DateTime, store: BlobContainer)
    returns (resp: Response)
    modifies store
    ensures resp == Run(req, cfg, libs, now).response
    ensures store.blobs == Publish(old(store.blobs), Run(req, cfg, libs, now).writes)
  {
    var files := Multipart.ParseMultipart(req);
    if files.Failure? {
      return ErrorResponse(files.error);
    }
    var excel := Get(files.value, ExcelField);
    var template := Get(files.value, TemplateField);
    var cover := Get(files.value, CoverField);
    var narrative := Get(files.value, NarrativeField);
    if excel.None? || template.None? {
      return Response(400, PlainText(MissingInputError));
    }
    var coverBytes := if cover.Some? then Some(cover.value.content) else None;
    var narrativeBytes := if narrative.Some? then Some(narrative.value.content) else None;
    var built := BuildArtifacts(excel.value.content, template.value.content, coverBytes, narrativeBytes, libs);
    if built.Failure? {
      return ErrorResponse(built.error);
    }
    assert Assemble(req, libs) == Success(Some(built.value));
    var ts := ArtifactNames.Timestamp(now);
    resp := PublishArtifacts(cfg, libs, ts, built.value, store);
  }

  /** One write sets that blob. */
  lemma PublishOne(blobs: map<string, Bytes>, n: string, d: Bytes)
    ensures Publish(blobs, [(n, d)]) == blobs[n := d]
  {
    assert [(n, d)][1..] == [];
  }

  /** Writes in two batches leave what the batches in sequence would. */
  lemma {:induction false} PublishAppend(blobs: map<string, Bytes>, w: seq<(string, Bytes)>, w': seq<(string, Bytes)>)
    ensures Publish(blobs, w + w') == Publish(Publish(blobs, w), w')
    decreases |w|
  {
    if w == [] {
      assert w + w' == w';
    } else {
      assert (w + w')[0] == w[0] && (w + w')[1..] == w[1..] + w';
      PublishAppend(blobs[w[0].0 := w[0].1], w[1..], w');
    }
  }

  /** Two writes: the second name's entry wins only for that name. */
  lemma PublishTwo(blobs: map<string, Bytes>, n1: string, d1: Bytes, n2: string, d2: Bytes)
    ensures Publish(blobs, [(n1, d1), (n2, d2)]) == blobs[n1 := d1][n2 := d2]
  {
    var w: seq<(string, Bytes)> := [(n1, d1), (n2, d2)];
    assert w[1..] == [(n2, d2)];
    assert Publish(blobs, w) == Publish(blobs[n1 := d1], [(n2, d2)]);
    assert [(n2, d2)][1..] == [];
    assert Publish(blobs[n1 := d1], [(n2, d2)]) == Publish(blobs[n1 := d1][n2 := d2], []);
  }

  // Properties of the handler

  /** Every answer is 200, 400 or 500; only a 200 carries links. */
  lemma StatusCodes(req: Multipart.Request, cfg: Config, libs: Libs, now: ArtifactNames.DateTime)
    ensures var r := Run(req, cfg, libs, now).response;
      && (r.status == 200 || r.status == 400 || r.status == 500)
      && (r.body.UrlPair? <==> r.status == 200)
  {
  }

  /** 400 exactly when the form parses but lacks the workbook or the template;
      nothing is published then. */
  lemma MissingInput(req: Multipart.Request, cfg: Config, libs: Libs, now: ArtifactNames.DateTime)
    ensures var o := Run(req, cfg, libs, now);
      && (o.response.status == 400 <==>
            Multipart.ParseRequest(req).Success?
            && (Get(Multipart.ParseRequest(req).value, ExcelField).None?
                || Get(Multipart.ParseRequest(req).value, TemplateField).None?))
      && (o.response.status == 400 ==> o.writes == [] && o.response.body == PlainText(MissingInputError))
  {
    match Assemble(req, libs)
    case Failure(e) =>
    case Success(None) =>
    case Success(Some(a)) =>
      var p := PublishOutcome(cfg, libs, ArtifactNames.Timestamp(now), a);
      assert p.response.status == 200 || p.response.status == 500;
  }

  /** A request that is not multipart/form-data is refused before anything is
      read. */
  lemma WrongContentType(req: Multipart.Request, cfg: Config, libs: Libs, now: ArtifactNames.DateTime)
    requires !Multipart.AcceptsContentType(req.contentType)
    ensures Run(req, cfg, libs, now) == Outcome(ErrorResponse(Multipart.ContentTypeError), [])
  {
  }

  /** Without a connection string nothing is published and the request fails
      with the configuration error, once the artifacts are built. */
  lemma NotConfigured(req: Multipart.Request, cfg: Config, libs: Libs, now: ArtifactNames.DateTime)
    requires cfg.connectionString == ""
    requires Assemble(req, libs).Success? && Assemble(req, libs).value.Some?
    ensures Run(req, cfg, libs, now) == Outcome(ErrorResponse(NotConfiguredError), [])
  {
  }

  /** On success both artifacts are written, under names carrying the same
      timestamp, and the links point at them. */
  lemma SuccessPublishesBoth(req: Multipart.Request, cfg: Config, libs: Libs, now: ArtifactNames.DateTime)
    requires Run(req, cfg, libs, now).response.status == 200
    ensures Assemble(req, libs).Success? && Assemble(req, libs).value.Some?
    ensures var o := Run(req, cfg, libs, now);
      var a := Assemble(req, libs).value.value;
      var ts := ArtifactNames.Timestamp(now);
      && o.writes == [(ArtifactNames.ReportName(ts), a.report), (ArtifactNames.NarrativeName(ts), a.narrative)]
      && libs.sign(cfg.account, cfg.container, ArtifactNames.ReportName(ts)).Success?
      && libs.sign(cfg.account, cfg.container, ArtifactNames.NarrativeName(ts)).Success?
      && o.response.body.pdfUrl
           == SasUrl(cfg.account, cfg.container, ArtifactNames.ReportName(ts),
                     libs.sign(cfg.account, cfg.container, ArtifactNames.ReportName(ts)).value)
      && o.response.body.narrativeDocxUrl
           == SasUrl(cfg.account, cfg.container, ArtifactNames.NarrativeName(ts),
                     libs.sign(cfg.account, cfg.container, ArtifactNames.NarrativeName(ts)).value)
  {
  }

  /** After a success the container holds both artifacts under their names,
      and every other blob as before. */
  lemma SuccessContainer(req: Multipart.Request, cfg: Config, libs: Libs, now: ArtifactNames.DateTime, blobs: map<string, Bytes>)
    requires Run(req, cfg, libs, now).response.status == 200
    ensures var ts := ArtifactNames.Timestamp(now);
      var a := Assemble(req, libs).value.value;
      var after := Publish(blobs, Run(req, cfg, libs, now).writes);
      && ArtifactNames.ReportName(ts) in after && after[ArtifactNames.ReportName(ts)] == a.report
      && ArtifactNames.NarrativeName(ts) in after && after[ArtifactNames.NarrativeName(ts)] == a.narrative
      && forall n :: n in blobs && n != ArtifactNames.ReportName(ts) && n != ArtifactNames.NarrativeName(ts)
           ==> n in after && after[n] == blobs[n]
  {
    SuccessPublishesBoth(req, cfg, libs, now);
    var ts := ArtifactNames.Timestamp(now);
    var a := Assemble(req, libs).value.value;
    ArtifactNames.NamesDistinct(ts, ts);
    PublishTwo(blobs, ArtifactNames.ReportName(ts), a.report, ArtifactNames.NarrativeName(ts), a.narrative);
  }

  /** The two uploads are not atomic: when the second fails, the report
      stays published and the request still fails. */
  lemma PartialPublish(req: Multipart.Request, cfg: Config, libs: Libs, now: ArtifactNames.DateTime)
    requires Assemble(req, libs).Success? && Assemble(req, libs).value.Some?
    requires var a := Assemble(req, libs).value.value;
      var ts := ArtifactNames.Timestamp(now);
      && Upload(cfg, libs, ArtifactNames.ReportName(ts), a.report).Success?
      && Upload(cfg, libs, ArtifactNames.NarrativeName(ts), a.narrative).Failure?
    ensures var a := Assemble(req, libs).value.value;
      var ts := ArtifactNames.Timestamp(now);
      var o := Run(req, cfg, libs, now);
      && o.response == ErrorResponse(Upload(cfg, libs, ArtifactNames.NarrativeName(ts), a.narrative).error)
      && (Stored(cfg, libs, ArtifactNames.NarrativeName(ts), a.narrative) ==>
            o.writes == [(ArtifactNames.ReportName(ts), a.report), (ArtifactNames.NarrativeName(ts), a.narrative)])
      && (!Stored(cfg, libs, ArtifactNames.NarrativeName(ts), a.narrative) ==>
            o.writes == [(ArtifactNames.ReportName(ts), a.report)])
  {
  }

  /** A blob is stored before its link is signed: when signing fails the
      upload fails with that error, and the blob stays written. */
  lemma UploadStoredBeforeSign(cfg: Config, libs: Libs, name: string, data: Bytes)
    ensures Upload(cfg, libs, name, data).Success? ==> Stored(cfg, libs, name, data)
    ensures Stored(cfg, libs, name, data) ==>
      (Upload(cfg, libs, name, data).Failure? <==> libs.sign(cfg.account, cfg.container, name).Failure?)
    ensures Stored(cfg, libs, name, data) && libs.sign(cfg.account, cfg.container, name).Failure? ==>
      Upload(cfg, libs, name, data).error == libs.sign(cfg.account, cfg.container, name).error
  {
  }

  /** When the report is stored but its link cannot be signed, the request
      fails with a 500 and the report stays in the container. */
  lemma SigningFailureKeepsReport(req: Multipart.Request, cfg: Config, libs: Libs, now: ArtifactNames.DateTime)
    requires Assemble(req, libs).Success? && Assemble(req, libs).value.Some?
    requires var a := Assemble(req, libs).value.value;
      var name := ArtifactNames.ReportName(ArtifactNames.Timestamp(now));
      Stored(cfg, libs, name, a.report) && libs.sign(cfg.account, cfg.container, name).Failure?
    ensures var a := Assemble(req, libs).value.value;
      var name := ArtifactNames.ReportName(ArtifactNames.Timestamp(now));
      Run(req, cfg, libs, now)
        == Outcome(ErrorResponse(libs.sign(cfg.account, cfg.container, name).error), [(name, a.report)])
  {
  }

  /** With `AZURE_STORAGE_CONNECTION_STRING` unset, a request whose artifacts
      are built fails with the configuration error and writes nothing. */
  lemma UnsetConnectionString(req: Multipart.Request, env: map<string, string>, accountOf: string -> string,
                              libs: Libs, now: ArtifactNames.DateTime)
    requires ConnectionStringVar !in env
    requires Assemble(req, libs).Success? && Assemble(req, libs).value.Some?
    ensures Run(req, ConfigOf(env, accountOf), libs, now) == Outcome(ErrorResponse(NotConfiguredError), [])
  {
    NotConfigured(req, ConfigOf(env, accountOf), libs, now);
  }

  /** The container is `BLOB_CONTAINER` when set, else "reports". */
  lemma ContainerSetting(env: map<string, string>, accountOf: string -> string)
    ensures ContainerVar in env ==> ConfigOf(env, accountOf).container == env[ContainerVar]
    ensures ContainerVar !in env ==> ConfigOf(env, accountOf).container == DefaultContainer
  {
  }

  /** The artifact stage stops at its first error, in the code's order: the
      workbook, its scores, the template, its filling, then the merge. On
      success the template is filled from `dict(zip(cats, scores))` of the
      very scores the scorecard shows. */
  lemma BuildStages(excel: Bytes, template: Bytes, cover: Option<Bytes>, narrative: Option<Bytes>, libs: Libs)
    ensures var ws := libs.loadSheet(excel, ScoreTable.SheetName);
      ws.Failure? ==> Build(excel, template, cover, narrative, libs) == Failure(ws.error)
    ensures var ws := libs.loadSheet(excel, ScoreTable.SheetName);
      ws.Success? && ScoreTable.ScoresOf(ws.value, libs.cells).Failure? ==>
        Build(excel, template, cover, narrative, libs) == Failure(ScoreTable.ScoresOf(ws.value, libs.cells).error)
    ensures var ws := libs.loadSheet(excel, ScoreTable.SheetName);
      var doc := libs.loadDocx(template);
      ws.Success? && ScoreTable.ScoresOf(ws.value, libs.cells).Success? && doc.Failure? ==>
        Build(excel, template, cover, narrative, libs) == Failure(doc.error)
    ensures var ws := libs.loadSheet(excel, ScoreTable.SheetName);
      var doc := libs.loadDocx(template);
      ws.Success? && ScoreTable.ScoresOf(ws.value, libs.cells).Success? && doc.Success? ==>
        var s := ScoreTable.ScoresOf(ws.value, libs.cells).value;
        var filled := TemplateFill.FillDocument(doc.value, FromItems(Zip(s.cats, s.scores)), libs.fmt2);
        filled.Failure? ==> Build(excel, template, cover, narrative, libs) == Failure(filled.error)
    ensures var ws := libs.loadSheet(excel, ScoreTable.SheetName);
      var doc := libs.loadDocx(template);
      ws.Success? && ScoreTable.ScoresOf(ws.value, libs.cells).Success? && doc.Success? ==>
        var s := ScoreTable.ScoresOf(ws.value, libs.cells).value;
        var filled := TemplateFill.FillDocument(doc.value, FromItems(Zip(s.cats, s.scores)), libs.fmt2);
        var card := libs.render(Scorecard.TitleText, Scorecard.ScorecardTable(s.cats, s.scores, s.overall, libs.round2), Scorecard.Tagline);
        var merged := PdfMerge.MergedBytes(cover, card, narrative, libs.readPdf, libs.writePdf);
        filled.Success? ==>
          Build(excel, template, cover, narrative, libs)
            == if merged.Failure? then Failure(merged.error)
               else Success(Artifacts(merged.value, libs.saveDocx(filled.value)))
  {
  }

  /** Nothing is uploaded unless every artifact is built: a failure in the
      artifact stage is a 500 with that error and no write. */
  lemma BuildFailureWritesNothing(req: Multipart.Request, cfg: Config, libs: Libs, now: ArtifactNames.DateTime)
    requires Multipart.ParseRequest(req).Success?
    requires Get(Multipart.ParseRequest(req).value, ExcelField).Some?
    requires Get(Multipart.ParseRequest(req).value, TemplateField).Some?
    ensures var f := Multipart.ParseRequest(req).value;
      var b := Build(Get(f, ExcelField).value.content, Get(f, TemplateField).value.content,
                     ContentOf(Get(f, CoverField)), ContentOf(Get(f, NarrativeField)), libs);
      && (b.Failure? ==> Run(req, cfg, libs, now) == Outcome(ErrorResponse(b.error), []))
      && (b.Success? ==> Run(req, cfg, libs, now) == PublishOutcome(cfg, libs, ArtifactNames.Timestamp(now), b.value))
  {
  }
}
