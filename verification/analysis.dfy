/** Comparing a prior-art document with the case's invention, and the
    firm's verdict on each comparison. */
module PriorArt {
  import opened Common
  import opened Tables

  const AnalyzeFailed := "Failed to analyze prior art."

  /** The fields of the model's JSON answer; a field it left out is `None`. */
  datatype AiReply = AiReply(
    summary: Option<string>,
    similarities: Option<seq<string>>,
    differences: Option<seq<string>>,
    similarityScore: Option<int>)

  /** The row stored for an answer: the answer's fields, the prior-art
      document as sent, and no verdict yet. */
  function AnalysisRow(id: Id, caseId: Id, priorArt: PriorArtDocument, reply: AiReply): (a: Analysis)
    ensures a.id == id && a.caseId == caseId && a.priorArtDocument == priorArt
    ensures a.reviewStatus.None?
  {
    Analysis(id, caseId, priorArt, reply.summary, reply.similarities, reply.differences, reply.similarityScore, None)
  }

  /** The answer a stored row was made from. */
  function ReplyOf(a: Analysis): AiReply {
    AiReply(a.analysisSummary, a.similarities, a.differences, a.similarityScore)
  }

  /** The row keeps the whole answer: reading it back gives the answer. */
  lemma RowKeepsReply(id: Id, caseId: Id, priorArt: PriorArtDocument, reply: AiReply)
    ensures ReplyOf(AnalysisRow(id, caseId, priorArt, reply)) == reply
  {
  }

  /** And a row without a verdict is the row of its own answer. */
  lemma RowOfReply(a: Analysis)
    requires a.reviewStatus.None?
    ensures AnalysisRow(a.id, a.caseId, a.priorArtDocument, ReplyOf(a)) == a
  {
  }

  /** `analyzePriorArt`. No prior-art document gives 400. The case must be
      the requester's and have a disclosure, and the model's answer must be
      JSON (`reply` none when it is not); otherwise 500. The answer is then
      stored and sent back; if storing it fails the reply is still 200, with
      no analysis (`null`). `newId` is the database's fresh id. */
  method AnalyzePriorArt(db: Db, caseId: Id, requester: UserId, priorArt: Option<PriorArtDocument>,
                         reply: Option<AiReply>, newId: Id, saveFails: bool)
    returns (result: Reply<Option<Analysis>>)
    requires db.Valid()
    requires newId !in db.analyses
    modifies db`analyses
    ensures db.Valid()
    ensures priorArt.None? ==>
              result == Fail(HttpBadRequest, "Prior art document is required.") && db.analyses == old(db.analyses)
    ensures priorArt.Some? && !(Owns(db.cases, caseId, requester) && caseId in db.disclosures && reply.Some?) ==>
              result == Fail(HttpServerError, AnalyzeFailed) && db.analyses == old(db.analyses)
    ensures priorArt.Some? && Owns(db.cases, caseId, requester) && caseId in db.disclosures && reply.Some? ==>
              var row := AnalysisRow(newId, caseId, priorArt.value, reply.value);
              && (saveFails ==> result == Ok(HttpOk, None) && db.analyses == old(db.analyses))
              && (!saveFails ==> result == Ok(HttpOk, Some(row)) && db.analyses == old(db.analyses)[newId := row])
  {
    if priorArt.None? {
      return Fail(HttpBadRequest, "Prior art document is required.");
    }
    if !(Owns(db.cases, caseId, requester) && caseId in db.disclosures) || reply.None? {
      return Fail(HttpServerError, AnalyzeFailed);
    }
    if saveFails {
      return Ok(HttpOk, None);
    }
    var row := AnalysisRow(newId, caseId, priorArt.value, reply.value);
    db.analyses := db.analyses[newId := row];
    result := Ok(HttpOk, Some(row));
  }

  /** The verdicts the firm may record: exactly "relevant" and "dismissed". */
  function ParseVerdict(status: Option<string>): (v: Option<Verdict>)
    ensures v == Some(Relevant) <==> status == Some("relevant")
    ensures v == Some(Dismissed) <==> status == Some("dismissed")
    ensures v.None? <==> status != Some("relevant") && status != Some("dismissed")
  {
    if status == Some("relevant") then Some(Relevant)
    else if status == Some("dismissed") then Some(Dismissed)
    else None
  }

  /** The text a verdict is stored as. */
  function VerdictLabel(v: Verdict): string {
    match v
    case Relevant => "relevant"
    case Dismissed => "dismissed"
  }

  /** Storing a verdict and reading it back gives the same verdict. */
  lemma VerdictRoundTrip(v: Verdict)
    ensures ParseVerdict(Some(VerdictLabel(v))) == Some(v)
  {
  }

  const AnalysisNotFound := "Analysis not found or permission denied."

  /** `updateAnalysisStatus`: any status but "relevant" or "dismissed" gives
      400; an analysis that does not exist or whose case the requester does
      not own gives 500; otherwise only its verdict changes. */
  method UpdateAnalysisStatus(db: Db, analysisId: Id, requester: UserId, status: Option<string>)
    returns (result: Reply<Analysis>)
    requires db.Valid()
    modifies db`analyses
    ensures db.Valid()
    ensures ParseVerdict(status).None? ==>
              result == Fail(HttpBadRequest, "Invalid status value.") && db.analyses == old(db.analyses)
    ensures ParseVerdict(status).Some? &&
            !(analysisId in old(db.analyses) && Owns(db.cases, old(db.analyses)[analysisId].caseId, requester)) ==>
              result == Fail(HttpServerError, AnalysisNotFound) && db.analyses == old(db.analyses)
    ensures ParseVerdict(status).Some? &&
            analysisId in old(db.analyses) && Owns(db.cases, old(db.analyses)[analysisId].caseId, requester) ==>
              var a := old(db.analyses)[analysisId].(reviewStatus := ParseVerdict(status));
              result == Ok(HttpOk, a) && db.analyses == old(db.analyses)[analysisId := a]
  {
    var verdict := ParseVerdict(status);
    if verdict.None? {
      return Fail(HttpBadRequest, "Invalid status value.");
    }
    if !(analysisId in db.analyses && Owns(db.cases, db.analyses[analysisId].caseId, requester)) {
      return Fail(HttpServerError, AnalysisNotFound);
    }
    var a := db.analyses[analysisId].(reviewStatus := verdict);
    db.analyses := db.analyses[analysisId := a];
    result := Ok(HttpOk, a);
  }

  /** Recording a verdict keeps the answer the analysis holds. */
  lemma VerdictKeepsAnswer(a: Analysis, v: Verdict)
    ensures ReplyOf(a.(reviewStatus := Some(v))) == ReplyOf(a)
    ensures a.(reviewStatus := Some(v)).priorArtDocument == a.priorArtDocument
  {
  }
}
