/** The client side of a case, reached through the secure link's token:
    reading the disclosure form, saving it as a draft, submitting it, and
    reviewing a shared document. */
module Idd {
  import opened Common
  import opened Text
  import opened Tables
  import opened Storage

  const InvalidLink := "Invalid or expired submission link."

  /** What `getIddData` sends back. Without a disclosure the reply has no
      comments and no documents at all (`None`). */
  datatype IddView = IddView(
    data: FormData,
    isSubmitted: bool,
    firmComments: Option<string>,
    sharedDocuments: Option<set<SignedDocument>>,
    caseStatus: CaseStatus)

  /** `x || null` on an optional string: an empty string counts as absent. */
  function NonEmpty(x: Option<string>): (r: Option<string>)
    ensures r.Some? <==> x.Some? && x.value != []
    ensures r.Some? ==> r == x
  {
    if x == Some([]) then None else x
  }

  /** The case's documents the firm has shared. */
  function SharedDocuments(documents: map<Id, Document>, caseId: Id): set<Document> {
    set d | d in documents.Values && d.caseId == caseId && d.isShared
  }

  /** `getIddData`: the case named by the token (else 404); with no
      disclosure, an empty form that is not submitted; otherwise the form,
      whether it was submitted, the firm's comments and the shared documents
      with their links. `urls` is the store's answer to the signing request. */
  function GetIddData(cases: map<Id, Case>, disclosures: map<Id, Disclosure>, documents: map<Id, Document>,
                      token: string, urls: Option<seq<SignedUrl>>): (r: Reply<IddView>)
    ensures r.Fail? <==> CaseByToken(cases, token).None?
    ensures r.Fail? ==> r == Fail(HttpNotFound, InvalidLink)
    ensures r.Ok? ==>
              var id := CaseByToken(cases, token).value;
              && r.code == HttpOk
              && r.body.caseStatus == cases[id].status
              && (r.body.isSubmitted <==> id in disclosures && disclosures[id].submittedAt.Some?)
              && (id !in disclosures ==> r.body == IddView(map[], false, None, None, cases[id].status))
              && (id in disclosures ==> r.body.data == disclosures[id].data)
              && (id in disclosures ==> r.body.sharedDocuments.Some?)
  {
    match CaseByToken(cases, token)
    case None => Fail(HttpNotFound, InvalidLink)
    case Some(id) =>
      var status := cases[id].status;
      if id !in disclosures then Ok(HttpOk, IddView(map[], false, None, None, status))
      else
        var d := disclosures[id];
        var shared := SignDocuments(SharedDocuments(documents, id), urls);
        Ok(HttpOk, IddView(d.data, d.submittedAt.Some?, NonEmpty(d.firmComments), Some(shared), status))
  }

  /** The documents the client sees are exactly the shared documents of the
      token's case, each with the first link the store gave for its path;
      documents not shared, or of other cases, never appear. */
  lemma ClientSeesOnlySharedDocuments(cases: map<Id, Case>, disclosures: map<Id, Disclosure>,
                                      documents: map<Id, Document>, token: string, urls: seq<SignedUrl>)
    requires CaseByToken(cases, token).Some?
    requires CaseByToken(cases, token).value in disclosures
    ensures var id := CaseByToken(cases, token).value;
            var shown := GetIddData(cases, disclosures, documents, token, Some(urls)).body.sharedDocuments.value;
            && (forall sd :: sd in shown ==>
                  sd.doc in documents.Values && sd.doc.caseId == id && sd.doc.isShared &&
                  sd.signedUrl == UrlFor(urls, sd.doc.filePath))
            && (forall d :: d in documents.Values && d.caseId == id && d.isShared ==>
                  SignedDocument(d, UrlFor(urls, d.filePath)) in shown)
  {
  }

  /** The new content of the disclosure row after an upsert on `case_id`
      that writes `data` and, when given, `submitted_at`: a new row has no
      comments; an existing row keeps the columns not written. */
  function Upserted(prior: Option<Disclosure>, caseId: Id, data: FormData, submittedAt: Option<Option<nat>>)
    : (r: Disclosure)
    ensures r.caseId == caseId && r.data == data
    ensures r.firmComments == (if prior.Some? then prior.value.firmComments else None)
    ensures r.submittedAt == (if submittedAt.Some? then submittedAt.value
                              else if prior.Some? then prior.value.submittedAt else None)
  {
    var base := if prior.Some? then prior.value.(caseId := caseId) else Disclosure(caseId, map[], None, None);
    var withData := base.(data := data);
    if submittedAt.Some? then withData.(submittedAt := submittedAt.value) else withData
  }

  function DisclosureOf(disclosures: map<Id, Disclosure>, caseId: Id): Option<Disclosure> {
    if caseId in disclosures then Some(disclosures[caseId]) else None
  }

  /** `saveIddDraft`: an unknown token gives 400; otherwise the form is
      upserted and nothing else of the disclosure changes, in particular not
      whether it was submitted. */
  method SaveIddDraft(db: Db, token: string, formData: FormData) returns (reply: Reply<string>)
    requires db.Valid()
    modifies db`disclosures
    ensures db.Valid()
    ensures CaseByToken(db.cases, token).None? ==>
              reply == Fail(HttpBadRequest, InvalidLink) && db.disclosures == old(db.disclosures)
    ensures CaseByToken(db.cases, token).Some? ==>
              var id := CaseByToken(db.cases, token).value;
              && reply == Ok(HttpOk, "Draft saved successfully!")
              && db.disclosures == old(db.disclosures)[id := Upserted(DisclosureOf(old(db.disclosures), id), id, formData, None)]
  {
    var found := CaseByToken(db.cases, token);
    if found.None? {
      return Fail(HttpBadRequest, InvalidLink);
    }
    var id := found.value;
    db.disclosures := db.disclosures[id := Upserted(DisclosureOf(db.disclosures, id), id, formData, None)];
    reply := Ok(HttpOk, "Draft saved successfully!");
  }

  /** Saving a draft never marks the form submitted, and keeps an earlier
      submission as it was. */
  lemma DraftKeepsSubmission(disclosures: map<Id, Disclosure>, id: Id, data: FormData)
    ensures Upserted(DisclosureOf(disclosures, id), id, data, None).submittedAt ==
            (if id in disclosures then disclosures[id].submittedAt else None)
    ensures id !in disclosures ==> Upserted(DisclosureOf(disclosures, id), id, data, None).submittedAt.None?
  {
  }

  /** `error.message || fallback`. */
  function MessageOr(message: string, fallback: string): (r: string)
    ensures r != [] || fallback == []
  {
    if message != [] then message else fallback
  }

  const SubmitFallback := "Failed to process submission."

  /** The row recorded for the file a client sends with the form. */
  function ClientDisclosureDocument(id: Id, c: Case, file: Upload, now: nat): (d: Document)
    ensures d.caseId == c.id && d.documentType == ClientDisclosure && d.storageBucket == CaseFilesBucket
    ensures d.filePath == DisclosurePath(c.firmUserId, c.id, now, file.originalName)
    ensures !d.isShared && d.clientReviewStatus.None?
  {
    Document(id, c.id, file.originalName, DisclosurePath(c.firmUserId, c.id, now, file.originalName),
             CaseFilesBucket, ClientDisclosure, None, false, None, None, now)
  }

  /** `submitIdd`. The token must name a case (else 400). A file, if sent, is
      uploaded to `<firm>/<case>/<now>-<name>` and recorded as a client
      disclosure document; a failed upload or insert (`fileError`) gives 400
      and nothing changes. Then the form is upserted as submitted at `now`,
      and the case becomes "IDD Submitted". The steps are not atomic: when
      the upsert (`upsertError`) or the status update (`statusError`) fails,
      the request fails with 400 and the writes before it remain. */
  method SubmitIdd(db: Db, token: string, formData: FormData, file: Option<Upload>, now: nat, newDocId: Id,
                   fileError: Option<string>, upsertError: Option<string>, statusError: Option<string>)
    returns (reply: Reply<string>)
    requires db.Valid()
    requires newDocId !in db.documents
    modifies db`documents, db`disclosures, db`cases
    ensures db.Valid()
    ensures CaseByToken(old(db.cases), token).None? ==>
              reply == Fail(HttpBadRequest, InvalidLink) && unchanged(db)
    ensures CaseByToken(old(db.cases), token).Some? && file.Some? && fileError.Some? ==>
              reply == Fail(HttpBadRequest, MessageOr(fileError.value, SubmitFallback)) && unchanged(db)
    ensures CaseByToken(old(db.cases), token).Some? && !(file.Some? && fileError.Some?) ==>
              var id := CaseByToken(old(db.cases), token).value;
              var c := old(db.cases)[id];
              && db.documents == (if file.None? then old(db.documents)
                                  else old(db.documents)[newDocId := ClientDisclosureDocument(newDocId, c, file.value, now)])
              && (upsertError.Some? ==>
                    && db.disclosures == old(db.disclosures) && db.cases == old(db.cases)
                    && reply == Fail(HttpBadRequest, MessageOr(upsertError.value, SubmitFallback)))
              && (upsertError.None? ==>
                    && db.disclosures == old(db.disclosures)[id := Upserted(DisclosureOf(old(db.disclosures), id), id, formData, Some(Some(now)))]
                    && db.cases == (if statusError.Some? then old(db.cases) else old(db.cases)[id := c.(status := IddSubmitted)])
                    && reply == (if statusError.Some? then Fail(HttpBadRequest, MessageOr(statusError.value, SubmitFallback))
                                 else Ok(HttpOk, "Invention disclosure submitted successfully!")))
  {
    var found := CaseByToken(db.cases, token);
    if found.None? {
      return Fail(HttpBadRequest, InvalidLink);
    }
    var id := found.value;
    var c := db.cases[id];
    if file.Some? {
      if fileError.Some? {
        return Fail(HttpBadRequest, MessageOr(fileError.value, SubmitFallback));
      }
      db.documents := db.documents[newDocId := ClientDisclosureDocument(newDocId, c, file.value, now)];
    }
    if upsertError.Some? {
      return Fail(HttpBadRequest, MessageOr(upsertError.value, SubmitFallback));
    }
    db.disclosures := db.disclosures[id := Upserted(DisclosureOf(db.disclosures, id), id, formData, Some(Some(now)))];
    if statusError.Some? {
      return Fail(HttpBadRequest, MessageOr(statusError.value, SubmitFallback));
    }
    db.cases := db.cases[id := c.(status := IddSubmitted)];
    reply := Ok(HttpOk, "Invention disclosure submitted successfully!");
  }

  /** A submitted form reads back as submitted, with the data sent. */
  lemma SubmittedFormReadsBack(cases: map<Id, Case>, disclosures: map<Id, Disclosure>, documents: map<Id, Document>,
                               token: string, data: FormData, now: nat, urls: Option<seq<SignedUrl>>)
    requires CaseByToken(cases, token).Some?
    ensures var id := CaseByToken(cases, token).value;
            var after := disclosures[id := Upserted(DisclosureOf(disclosures, id), id, data, Some(Some(now)))];
            var view := GetIddData(cases, after, documents, token, urls);
            view.Ok? && view.body.isSubmitted && view.body.data == data
  {
  }

  /** The review verdicts a client may send: "approved" and
      "changes_requested"; anything else, or nothing, is refused. */
  function ClientVerdict(status: Option<string>): (r: Option<ReviewStatus>)
    ensures r.Some? <==> status == Some("approved") || status == Some("changes_requested")
    ensures r == Some(Approved) <==> status == Some("approved")
    ensures r.Some? ==> r.value != Pending
  {
    if status == Some("approved") then Some(Approved)
    else if status == Some("changes_requested") then Some(ChangesRequested)
    else None
  }

  /** The case status a review leads to. */
  function StatusAfterReview(verdict: ReviewStatus): (st: CaseStatus)
    requires verdict != Pending
    ensures st == ClientApproved <==> verdict == Approved
    ensures st == ClientChangesRequested <==> verdict == ChangesRequested
  {
    match verdict
    case Approved => ClientApproved
    case ChangesRequested => ClientChangesRequested
  }

  /** The document after the review: its verdict and, when sent, the
      comments (a missing field is left out of the update). */
  function Reviewed(d: Document, verdict: ReviewStatus, comments: Option<string>): (r: Document)
    ensures r.clientReviewStatus == Some(verdict)
    ensures r.clientComments == (if comments.Some? then comments else d.clientComments)
    ensures r.(clientReviewStatus := d.clientReviewStatus, clientComments := d.clientComments) == d
  {
    d.(clientReviewStatus := Some(verdict), clientComments := if comments.Some? then comments else d.clientComments)
  }

  /** `submitClientReview`. The verdict is checked first (400); then the
      token (500); then the document must be the one with that id in the
      token's case (500). The document takes the review and the case the
      matching status; if updating the case fails the reply is 500 though
      the review was stored. */
  method SubmitClientReview(db: Db, token: string, docId: Id, status: Option<string>, comments: Option<string>,
                            caseUpdateFails: bool)
    returns (reply: Reply<Document>)
    requires db.Valid()
    modifies db`documents, db`cases
    ensures db.Valid()
    ensures ClientVerdict(status).None? ==>
              reply == Fail(HttpBadRequest, "A valid status is required.") && unchanged(db)
    ensures ClientVerdict(status).Some? && CaseByToken(old(db.cases), token).None? ==>
              reply == Fail(HttpServerError, "Invalid or expired link.") && unchanged(db)
    ensures ClientVerdict(status).Some? && CaseByToken(old(db.cases), token).Some? &&
            !(docId in old(db.documents) && old(db.documents)[docId].caseId == CaseByToken(old(db.cases), token).value) ==>
              reply == Fail(HttpServerError, DatabaseError) && unchanged(db)
    ensures ClientVerdict(status).Some? && CaseByToken(old(db.cases), token).Some? &&
            docId in old(db.documents) && old(db.documents)[docId].caseId == CaseByToken(old(db.cases), token).value ==>
              var id := CaseByToken(old(db.cases), token).value;
              var v := ClientVerdict(status).value;
              var reviewed := Reviewed(old(db.documents)[docId], v, comments);
              && db.documents == old(db.documents)[docId := reviewed]
              && db.cases == (if caseUpdateFails then old(db.cases)
                              else old(db.cases)[id := old(db.cases)[id].(status := StatusAfterReview(v))])
              && reply == (if caseUpdateFails then Fail(HttpServerError, DatabaseError) else Ok(HttpOk, reviewed))
  {
    var verdict := ClientVerdict(status);
    if verdict.None? {
      return Fail(HttpBadRequest, "A valid status is required.");
    }
    var found := CaseByToken(db.cases, token);
    if found.None? {
      return Fail(HttpServerError, "Invalid or expired link.");
    }
    var id := found.value;
    if !(docId in db.documents && db.documents[docId].caseId == id) {
      return Fail(HttpServerError, DatabaseError);
    }
    var reviewed := Reviewed(db.documents[docId], verdict.value, comments);
    db.documents := db.documents[docId := reviewed];
    if caseUpdateFails {
      return Fail(HttpServerError, DatabaseError);
    }
    db.cases := db.cases[id := db.cases[id].(status := StatusAfterReview(verdict.value))];
    reply := Ok(HttpOk, reviewed);
  }
}
