/** Sharing a document of a case with the client, so that it shows on the
    client's link for review. */
module Documents {
  import opened Common
  import opened Tables
  import opened Idd

  const NotFoundOrDenied := "Document not found or permission denied."

  /** The document exists and belongs to a case the requester owns (the
      inner join on `cases`). */
  predicate OwnsDocument(cases: map<Id, Case>, documents: map<Id, Document>, docId: Id, requester: UserId) {
    docId in documents && Owns(cases, documents[docId].caseId, requester)
  }

  /** The document once shared: visible to the client and waiting for the
      client's review; nothing else of it changes. */
  function Shared(d: Document): (r: Document)
    ensures r.isShared && r.clientReviewStatus == Some(Pending)
    ensures r.(isShared := d.isShared, clientReviewStatus := d.clientReviewStatus) == d
  {
    d.(isShared := true, clientReviewStatus := Some(Pending))
  }

  /** `shareDocument`: 500 unless the requester owns the document's case.
      Otherwise the document is shared and its case moves to "Awaiting
      Client Approval"; if that case update fails the reply is 500 but the
      document stays shared. */
  method ShareDocument(db: Db, docId: Id, requester: UserId, caseUpdateFails: bool)
    returns (reply: Reply<Document>)
    requires db.Valid()
    modifies db`documents, db`cases
    ensures db.Valid()
    ensures !OwnsDocument(old(db.cases), old(db.documents), docId, requester) ==>
              reply == Fail(HttpServerError, NotFoundOrDenied) && unchanged(db)
    ensures OwnsDocument(old(db.cases), old(db.documents), docId, requester) ==>
              var d := Shared(old(db.documents)[docId]);
              && db.documents == old(db.documents)[docId := d]
              && db.cases == (if caseUpdateFails then old(db.cases)
                              else old(db.cases)[d.caseId := old(db.cases)[d.caseId].(status := AwaitingClientApproval)])
              && reply == (if caseUpdateFails then Fail(HttpServerError, DatabaseError) else Ok(HttpOk, d))
  {
    if !OwnsDocument(db.cases, db.documents, docId, requester) {
      return Fail(HttpServerError, NotFoundOrDenied);
    }
    var d := Shared(db.documents[docId]);
    db.documents := db.documents[docId := d];
    if caseUpdateFails {
      return Fail(HttpServerError, DatabaseError);
    }
    db.cases := db.cases[d.caseId := db.cases[d.caseId].(status := AwaitingClientApproval)];
    reply := Ok(HttpOk, d);
  }

  /** Once shared, a document is among those the client's link shows for
      its case, and the documents shared before still are. */
  lemma SharingShowsDocumentToClient(documents: map<Id, Document>, docId: Id)
    requires docId in documents && documents[docId].id == docId
    ensures var d := documents[docId];
            var after := documents[docId := Shared(d)];
            && Shared(d) in SharedDocuments(after, d.caseId)
            && SharedDocuments(documents, d.caseId) - {d} <= SharedDocuments(after, d.caseId)
  {
    var d := documents[docId];
    var after := documents[docId := Shared(d)];
    assert after[docId] == Shared(d);
    forall x | x in SharedDocuments(documents, d.caseId) - {d}
      ensures x in SharedDocuments(after, d.caseId)
    {
      var k :| k in documents && documents[k] == x;
      assert k != docId;
      assert after[k] == x;
    }
  }
}
