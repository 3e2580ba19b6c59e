/** The rows of the relational store the handlers read and write, and the store
    itself as one object whose tables the handlers update in place. */
module Tables {
  import opened Common

  type Id = string
  type UserId = string

  /** The disclosure form as the client sent it (the request body). */
  type FormData = map<string, string>

  /** A prior-art search result as the browser sent it. */
  type PriorArtDocument = map<string, string>

  type Embedding = seq<real>

  /** The values of a case's `status` column. */
  datatype CaseStatus =
    | AwaitingClientIdd
    | IddSubmitted
    | DraftingReady
    | AwaitingClientApproval
    | ClientApproved
    | ClientChangesRequested
  {
    /** The text stored in the column. */
    function Label(): string {
      match this
      case AwaitingClientIdd => "Awaiting Client IDD"
      case IddSubmitted => "IDD Submitted"
      case DraftingReady => "Drafting Ready"
      case AwaitingClientApproval => "Awaiting Client Approval"
      case ClientApproved => "Client Approved"
      case ClientChangesRequested => "Client Changes Requested"
    }
  }

  /** Reading the column back: every label names exactly one status. */
  function ParseStatus(text: string): (st: Option<CaseStatus>)
    ensures st.Some? ==> st.value.Label() == text
  {
    if text == "Awaiting Client IDD" then Some(AwaitingClientIdd)
    else if text == "IDD Submitted" then Some(IddSubmitted)
    else if text == "Drafting Ready" then Some(DraftingReady)
    else if text == "Awaiting Client Approval" then Some(AwaitingClientApproval)
    else if text == "Client Approved" then Some(ClientApproved)
    else if text == "Client Changes Requested" then Some(ClientChangesRequested)
    else None
  }

  /** Every status reads back as itself, so no two statuses share a label. */
  lemma StatusRoundTrip(st: CaseStatus)
    ensures ParseStatus(st.Label()) == Some(st)
  {
  }

  /** The status a new case gets from the column default. */
  const InitialStatus := AwaitingClientIdd

  /** A row of `cases`. */
  datatype Case = Case(
    id: Id,
    firmUserId: UserId,
    clientName: string,
    clientEmail: string,
    inventionTitleSnippet: Option<string>,
    iddSecureLinkToken: string,
    status: CaseStatus)

  /** A row of `invention_disclosures`; there is at most one per case
      (the upserts resolve conflicts on `case_id`). */
  datatype Disclosure = Disclosure(
    caseId: Id,
    data: FormData,
    submittedAt: Option<nat>,
    firmComments: Option<string>)

  datatype DocumentType = ClientDisclosure | ManualPriorArt | OtherType(name: string)

  /** The values of `client_review_status`. */
  datatype ReviewStatus = Pending | Approved | ChangesRequested

  /** A row of `case_documents`. */
  datatype Document = Document(
    id: Id,
    caseId: Id,
    fileName: string,
    filePath: string,
    storageBucket: string,
    documentType: DocumentType,
    notes: Option<string>,
    isShared: bool,
    clientReviewStatus: Option<ReviewStatus>,
    clientComments: Option<string>,
    createdAt: nat)

  /** The values of an analysis's `review_status`. */
  datatype Verdict = Relevant | Dismissed

  /** A row of `ai_prior_art_analysis`. */
  datatype Analysis = Analysis(
    id: Id,
    caseId: Id,
    priorArtDocument: PriorArtDocument,
    analysisSummary: Option<string>,
    similarities: Option<seq<string>>,
    differences: Option<seq<string>>,
    similarityScore: Option<int>,
    reviewStatus: Option<Verdict>)

  /** A row of `draft_versions`. */
  datatype DraftVersion = DraftVersion(
    id: Id,
    caseId: Id,
    fullContent: string,
    createdAt: int,
    versionName: Option<string>,
    isMilestone: bool,
    isLatest: bool)

  /** A row of `document_chunks`. */
  datatype ChunkRow = ChunkRow(caseId: Id, content: string, embedding: Embedding)

  const CaseFilesBucket := "case-files"

  /** The text of an error the database itself reports; the model does not
      tell such errors apart. */
  const DatabaseError := "database error"

  /** `draft_versions.id` is the table's key. */
  predicate VersionIdsDistinct(versions: seq<DraftVersion>) {
    forall i, j :: 0 <= i < j < |versions| ==> versions[i].id != versions[j].id
  }

  /** The requester owns the case: the `.eq("id", ...).eq("firm_user_id", ...)` check. */
  predicate Owns(cases: map<Id, Case>, caseId: Id, user: UserId) {
    caseId in cases && cases[caseId].firmUserId == user
  }

  function CasesWithToken(cases: map<Id, Case>, token: string): set<Id> {
    set id | id in cases && cases[id].iddSecureLinkToken == token
  }

  lemma SingletonMember(ids: set<Id>, a: Id, b: Id)
    requires |ids| == 1 && a in ids && b in ids
    ensures a == b
  {
    var rest := ids - {a};
    assert |rest| == |ids| - 1 == 0;
    assert rest == {};
    assert b !in rest;
  }

  /** The case a client link's token names, looked up with `.single()`: found
      only when exactly one case carries the token. */
  function CaseByToken(cases: map<Id, Case>, token: string): (r: Option<Id>)
    ensures r.Some? ==> r.value in cases && cases[r.value].iddSecureLinkToken == token
    ensures r.Some? ==> forall id :: id in cases && cases[id].iddSecureLinkToken == token ==> id == r.value
    ensures r.None? ==> forall id :: id in cases && cases[id].iddSecureLinkToken == token ==>
                          exists other :: other in cases && other != id && cases[other].iddSecureLinkToken == token
  {
    var ids := CasesWithToken(cases, token);
    assert forall x :: x in cases && cases[x].iddSecureLinkToken == token <==> x in ids;
    if |ids| == 1 then
      var id :| id in ids;
      assert forall other :: other in ids ==> other == id by {
        forall other | other in ids ensures other == id {
          SingletonMember(ids, other, id);
        }
      }
      Some(id)
    else
      assert forall id :: id in ids ==> exists other :: other in ids && other != id by {
        forall id | id in ids ensures exists other :: other in ids && other != id {
          var rest := ids - {id};
          assert |rest| == |ids| - 1 >= 1;
          assert rest != {};
          var other :| other in rest;
        }
      }
      None
  }

  /** The store: one map per table keyed by row id (the disclosures keyed by
      their case), and the version and chunk tables as sequences of rows. */
  class Db {
    var cases: map<Id, Case>
    var disclosures: map<Id, Disclosure>
    var documents: map<Id, Document>
    var analyses: map<Id, Analysis>
    var versions: seq<DraftVersion>
    var chunks: seq<ChunkRow>

    /** Every row is stored under its own id and belongs to a case that exists;
        draft versions have distinct ids. */
    ghost predicate Valid()
      reads this
    {
      && (forall id :: id in cases ==> cases[id].id == id)
      && (forall c :: c in disclosures ==> disclosures[c].caseId == c && c in cases)
      && (forall d :: d in documents ==> documents[d].id == d && documents[d].caseId in cases)
      && (forall a :: a in analyses ==> analyses[a].id == a && analyses[a].caseId in cases)
      && (forall k :: 0 <= k < |chunks| ==> chunks[k].caseId in cases)
      && VersionIdsDistinct(versions)
    }

    constructor ()
      ensures Valid()
      ensures cases == map[] && disclosures == map[] && documents == map[] && analyses == map[]
      ensures versions == [] && chunks == []
    {
      cases, disclosures, documents, analyses := map[], map[], map[], map[];
      versions, chunks := [], [];
    }
  }
}
