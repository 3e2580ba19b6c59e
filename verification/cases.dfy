/** The firm's side of a case: opening it, listing and reading cases,
    uploading its own prior art, and sending the disclosure back to the
    client with comments. */
module Cases {
  import opened Common
  import opened Tables
  import opened Storage
  import opened Idd

  const NamesRequired := "Client name and email are required."
  const NotFound := "Case not found or you don't have permission to view it."

  /** `!x` on an optional string: missing, or the empty string. */
  predicate Missing(x: Option<string>) {
    x.None? || x.value == []
  }

  /** The row `createNewCase` inserts: the requester's case, in the column's
      default status, with a fresh link token. */
  function NewCase(id: Id, requester: UserId, clientName: string, clientEmail: string,
                   snippet: Option<string>, token: string): (c: Case)
    ensures c.id == id && c.firmUserId == requester && c.iddSecureLinkToken == token
    ensures c.status == InitialStatus && c.status.Label() == "Awaiting Client IDD"
  {
    Case(id, requester, clientName, clientEmail, snippet, token, InitialStatus)
  }

  /** `createNewCase`: a missing or empty name or email gives 400 and
      changes nothing; otherwise the new case is stored and sent back with
      201. `newId` and `token` are the database's and `uuidv4`'s fresh values. */
  method CreateNewCase(db: Db, requester: UserId, clientName: Option<string>, clientEmail: Option<string>,
                       snippet: Option<string>, newId: Id, token: string)
    returns (reply: Reply<Case>)
    requires db.Valid()
    requires newId !in db.cases
    modifies db`cases
    ensures db.Valid()
    ensures Missing(clientName) || Missing(clientEmail) ==>
              reply == Fail(HttpBadRequest, NamesRequired) && db.cases == old(db.cases)
    ensures !Missing(clientName) && !Missing(clientEmail) ==>
              var c := NewCase(newId, requester, clientName.value, clientEmail.value, snippet, token);
              reply == Ok(HttpCreated, c) && db.cases == old(db.cases)[newId := c]
  {
    if Missing(clientName) || Missing(clientEmail) {
      return Fail(HttpBadRequest, NamesRequired);
    }
    var c := NewCase(newId, requester, clientName.value, clientEmail.value, snippet, token);
    db.cases := db.cases[newId := c];
    reply := Ok(HttpCreated, c);
  }

  /** A new case whose token no other case carries is the one its client
      link opens. */
  lemma FreshTokenNamesNewCase(cases: map<Id, Case>, c: Case)
    requires c.id !in cases
    requires forall id :: id in cases ==> cases[id].iddSecureLinkToken != c.iddSecureLinkToken
    ensures CaseByToken(cases[c.id := c], c.iddSecureLinkToken) == Some(c.id)
  {
    var after := cases[c.id := c];
    assert CasesWithToken(after, c.iddSecureLinkToken) == {c.id};
  }

  /** `getAllCases`: the requester's cases, in no particular order. */
  function GetAllCases(cases: map<Id, Case>, requester: UserId): (r: set<Case>)
    ensures forall c :: c in r <==> c in cases.Values && c.firmUserId == requester
  {
    set c | c in cases.Values && c.firmUserId == requester
  }

  /** A case just created is listed for its firm, beside the cases listed
      before, and for no one else. */
  lemma CreatedCaseIsListed(cases: map<Id, Case>, c: Case, user: UserId)
    requires c.id !in cases
    ensures user == c.firmUserId ==> GetAllCases(cases[c.id := c], user) == GetAllCases(cases, user) + {c}
    ensures user != c.firmUserId ==> GetAllCases(cases[c.id := c], user) == GetAllCases(cases, user)
  {
    var after := cases[c.id := c];
    assert after.Values == cases.Values + {c} by {
      forall x | x in after.Values ensures x in cases.Values + {c} {
        var k :| k in after && after[k] == x;
      }
      forall x | x in cases.Values ensures x in after.Values {
        var k :| k in cases && cases[k] == x;
        assert k != c.id;
        assert after[k] == x;
      }
      assert after[c.id] == c;
    }
  }

  /** A disclosure as the firm reads it: the row with its form decrypted
      (`None` where decryption failed). */
  datatype DisclosureView = DisclosureView(row: Disclosure, data: Option<FormData>)

  /** What `getCaseDetails` sends back. */
  datatype CaseDetails = CaseDetails(
    caseRow: Case,
    disclosure: Option<DisclosureView>,
    documents: set<SignedDocument>,
    analyses: set<Analysis>)

  function CaseDocuments(documents: map<Id, Document>, caseId: Id): set<Document> {
    set d | d in documents.Values && d.caseId == caseId
  }

  /** `getCaseDetails`: 404 unless the requester owns the case; otherwise
      the case, its disclosure decrypted with `decrypt`, its documents with
      their links (`urls` is the store's answer) and all its analyses. */
  function GetCaseDetails(cases: map<Id, Case>, disclosures: map<Id, Disclosure>, documents: map<Id, Document>,
                          analyses: map<Id, Analysis>, caseId: Id, requester: UserId,
                          decrypt: FormData -> Option<FormData>, urls: Option<seq<SignedUrl>>)
    : (r: Reply<CaseDetails>)
    ensures r.Fail? <==> !Owns(cases, caseId, requester)
    ensures r.Fail? ==> r == Fail(HttpNotFound, NotFound)
    ensures r.Ok? ==>
              && r.code == HttpOk
              && r.body.caseRow == cases[caseId]
              && (r.body.disclosure.Some? <==> caseId in disclosures)
              && (caseId in disclosures ==>
                    r.body.disclosure.value == DisclosureView(disclosures[caseId], decrypt(disclosures[caseId].data)))
              && (forall a :: a in r.body.analyses <==> a in analyses.Values && a.caseId == caseId)
              && (urls.None? ==> r.body.documents == {})
              && (forall sd :: sd in r.body.documents <==>
                    && urls.Some? && sd.doc in documents.Values && sd.doc.caseId == caseId
                    && sd.signedUrl == UrlFor(urls.value, sd.doc.filePath))
  {
    if !Owns(cases, caseId, requester) then Fail(HttpNotFound, NotFound)
    else
      var disclosure := if caseId in disclosures
                        then Some(DisclosureView(disclosures[caseId], decrypt(disclosures[caseId].data)))
                        else None;
      var signed := SignDocuments(CaseDocuments(documents, caseId), urls);
      var found := set a | a in analyses.Values && a.caseId == caseId;
      Ok(HttpOk, CaseDetails(cases[caseId], disclosure, signed, found))
  }

  /** Another firm's case reads exactly like a case that does not exist. */
  lemma OthersSeeNoDetails(cases: map<Id, Case>, disclosures: map<Id, Disclosure>, documents: map<Id, Document>,
                           analyses: map<Id, Analysis>, caseId: Id, requester: UserId,
                           decrypt: FormData -> Option<FormData>, urls: Option<seq<SignedUrl>>)
    requires caseId in cases && cases[caseId].firmUserId != requester
    ensures GetCaseDetails(cases, disclosures, documents, analyses, caseId, requester, decrypt, urls) ==
            GetCaseDetails(cases - {caseId}, disclosures, documents, analyses, caseId, requester, decrypt, urls)
  {
  }

  /** The row `uploadManualPriorArt` inserts. */
  function ManualDocument(id: Id, c: Case, file: Upload, notes: Option<string>, now: nat): (d: Document)
    ensures d.caseId == c.id && d.documentType == ManualPriorArt && d.storageBucket == CaseFilesBucket
    ensures d.filePath == ManualPath(c.firmUserId, c.id, now, file.originalName)
    ensures !d.isShared && d.clientReviewStatus.None?
  {
    Document(id, c.id, file.originalName, ManualPath(c.firmUserId, c.id, now, file.originalName),
             CaseFilesBucket, ManualPriorArt, notes, false, None, None, now)
  }

  /** `uploadManualPriorArt`: no file gives 400; a case the requester does
      not own, or a failed upload or insert (`storeFails`), gives 500 and no
      row; otherwise the file is stored under the case's `manual` folder and
      recorded as manual prior art, not shared. */
  method UploadManualPriorArt(db: Db, caseId: Id, requester: UserId, file: Option<Upload>, notes: Option<string>,
                              now: nat, newDocId: Id, storeFails: bool)
    returns (reply: Reply<Document>)
    requires db.Valid()
    requires newDocId !in db.documents
    modifies db`documents
    ensures db.Valid()
    ensures file.None? ==> reply == Fail(HttpBadRequest, "A file is required.") && db.documents == old(db.documents)
    ensures file.Some? && (!Owns(db.cases, caseId, requester) || storeFails) ==>
              reply == Fail(HttpServerError, "Failed to upload document.") && db.documents == old(db.documents)
    ensures file.Some? && Owns(db.cases, caseId, requester) && !storeFails ==>
              var d := ManualDocument(newDocId, db.cases[caseId], file.value, notes, now);
              reply == Ok(HttpCreated, d) && db.documents == old(db.documents)[newDocId := d]
  {
    if file.None? {
      return Fail(HttpBadRequest, "A file is required.");
    }
    if !Owns(db.cases, caseId, requester) || storeFails {
      return Fail(HttpServerError, "Failed to upload document.");
    }
    var d := ManualDocument(newDocId, db.cases[caseId], file.value, notes, now);
    db.documents := db.documents[newDocId := d];
    reply := Ok(HttpCreated, d);
  }

  /** The disclosure after the firm asks for changes: the comments are
      stored and the form is open again; the client's answers are kept. */
  function Reopened(d: Disclosure, comments: string): (r: Disclosure)
    ensures r.firmComments == Some(comments) && r.submittedAt.None?
    ensures r.caseId == d.caseId && r.data == d.data
  {
    d.(firmComments := Some(comments), submittedAt := None)
  }

  /** `requestChanges`: missing or empty comments give 400; a case the
      requester does not own gives 500. Otherwise the case goes back to
      "Awaiting Client IDD" (unless that update fails, giving 500 with no
      change), and then its disclosure is reopened with the comments. That
      second update fails for a case with no disclosure yet, or on a fault
      (`disclosureUpdateFails`), giving 500 after the status was changed. */
  method RequestChanges(db: Db, caseId: Id, requester: UserId, comments: Option<string>,
                        statusUpdateFails: bool, disclosureUpdateFails: bool)
    returns (reply: Reply<Disclosure>)
    requires db.Valid()
    modifies db`cases, db`disclosures
    ensures db.Valid()
    ensures Missing(comments) ==>
              reply == Fail(HttpBadRequest, "Comments are required to request changes.") && unchanged(db)
    ensures !Missing(comments) && (!Owns(old(db.cases), caseId, requester) || statusUpdateFails) ==>
              reply == Fail(HttpServerError, "Failed to request changes.") && unchanged(db)
    ensures !Missing(comments) && Owns(old(db.cases), caseId, requester) && !statusUpdateFails ==>
              && db.cases == old(db.cases)[caseId := old(db.cases)[caseId].(status := AwaitingClientIdd)]
              && (caseId !in old(db.disclosures) || disclosureUpdateFails ==>
                    reply == Fail(HttpServerError, "Failed to request changes.") && db.disclosures == old(db.disclosures))
              && (caseId in old(db.disclosures) && !disclosureUpdateFails ==>
                    var d := Reopened(old(db.disclosures)[caseId], comments.value);
                    reply == Ok(HttpOk, d) && db.disclosures == old(db.disclosures)[caseId := d])
  {
    if Missing(comments) {
      return Fail(HttpBadRequest, "Comments are required to request changes.");
    }
    if !Owns(db.cases, caseId, requester) || statusUpdateFails {
      return Fail(HttpServerError, "Failed to request changes.");
    }
    db.cases := db.cases[caseId := db.cases[caseId].(status := AwaitingClientIdd)];
    if caseId !in db.disclosures || disclosureUpdateFails {
      return Fail(HttpServerError, "Failed to request changes.");
    }
    var d := Reopened(db.disclosures[caseId], comments.value);
    db.disclosures := db.disclosures[caseId := d];
    reply := Ok(HttpOk, d);
  }

  /** After changes are requested, the client's link shows the form open
      again, with the firm's comments and the answers given so far. */
  lemma ReopenedFormReachesClient(cases: map<Id, Case>, disclosures: map<Id, Disclosure>, documents: map<Id, Document>,
                                  token: string, comments: string, urls: Option<seq<SignedUrl>>)
    requires CaseByToken(cases, token).Some? && CaseByToken(cases, token).value in disclosures
    requires comments != []
    ensures var id := CaseByToken(cases, token).value;
            var after := disclosures[id := Reopened(disclosures[id], comments)];
            var view := GetIddData(cases, after, documents, token, urls);
            && view.Ok?
            && !view.body.isSubmitted
            && view.body.firmComments == Some(comments)
            && view.body.data == disclosures[id].data
  {
  }
}
