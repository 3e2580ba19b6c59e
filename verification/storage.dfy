/** The file store the handlers upload to and sign links for: where an upload
    is put, and how documents are joined with the signed links the store
    returns for their paths. */
module Storage {
  import opened Common
  import opened Text
  import opened Tables

  /** A file sent with a request (`req.file`): its original name. */
  datatype Upload = Upload(originalName: string)

  /** One entry of `createSignedUrls`'s answer: the path it is for, and its
      link when the store could sign it. */
  datatype SignedUrl = SignedUrl(path: string, signedUrl: Option<string>)

  /** A document row as sent to the browser, with the link to its file. */
  datatype SignedDocument = SignedDocument(doc: Document, signedUrl: Option<string>)

  /** `<firm>/<case>/<ms>-<name>`: where a client's disclosure file goes. */
  function DisclosurePath(firm: UserId, caseId: Id, now: nat, name: string): string {
    firm + "/" + caseId + "/" + Decimal(now) + "-" + name
  }

  /** `<firm>/<case>/manual/<ms>-<name>`: where a firm's own prior-art file goes. */
  function ManualPath(firm: UserId, caseId: Id, now: nat, name: string): string {
    firm + "/" + caseId + "/manual/" + Decimal(now) + "-" + name
  }

  lemma StampHasNoSlash(now: nat, name: string)
    requires '/' !in name
    ensures '/' !in Decimal(now) + "-" + name
  {
    var d := Decimal(now);
    assert forall k :: 0 <= k < |d| ==> d[k] != '/';
    assert '/' !in d;
  }

  /** When no id and no file name holds a `/`, the path's segments are the
      firm, the case and the stamped file name, so uploads of different
      cases or firms never share a folder. */
  lemma DisclosurePathSegments(firm: UserId, caseId: Id, now: nat, name: string)
    requires '/' !in firm && '/' !in caseId && '/' !in name
    ensures Split(DisclosurePath(firm, caseId, now, name), '/') == [firm, caseId, Decimal(now) + "-" + name]
  {
    var file := Decimal(now) + "-" + name;
    StampHasNoSlash(now, name);
    assert DisclosurePath(firm, caseId, now, name) == firm + ['/'] + (caseId + ['/'] + file);
    SplitWithoutSeparator(file, '/');
    SplitAtSeparator(caseId, '/', file);
    SplitAtSeparator(firm, '/', caseId + ['/'] + file);
  }

  lemma ManualPathSegments(firm: UserId, caseId: Id, now: nat, name: string)
    requires '/' !in firm && '/' !in caseId && '/' !in name
    ensures Split(ManualPath(firm, caseId, now, name), '/') == [firm, caseId, "manual", Decimal(now) + "-" + name]
  {
    var file := Decimal(now) + "-" + name;
    StampHasNoSlash(now, name);
    SplitWithoutSeparator(file, '/');
    SplitAtSeparator("manual", '/', file);
    SplitAtSeparator(caseId, '/', "manual" + ['/'] + file);
    SplitAtSeparator(firm, '/', caseId + ['/'] + ("manual" + ['/'] + file));
    assert ManualPath(firm, caseId, now, name) == firm + ['/'] + (caseId + ['/'] + ("manual" + ['/'] + file));
  }

  /** A manual upload and a client upload never land on the same path. */
  lemma ManualAndDisclosurePathsDiffer(firm: UserId, caseId: Id, t1: nat, n1: string, t2: nat, n2: string)
    requires '/' !in firm && '/' !in caseId && '/' !in n1 && '/' !in n2
    ensures ManualPath(firm, caseId, t1, n1) != DisclosurePath(firm, caseId, t2, n2)
  {
    ManualPathSegments(firm, caseId, t1, n1);
    DisclosurePathSegments(firm, caseId, t2, n2);
  }

  /** The index of the first entry for `path`. */
  function FirstEntryFor(urls: seq<SignedUrl>, path: string, from: nat): (r: Option<nat>)
    ensures r.Some? ==> from <= r.value < |urls| && urls[r.value].path == path
    ensures r.Some? ==> forall j :: from <= j < r.value ==> urls[j].path != path
    ensures r.None? ==> forall j :: from <= j < |urls| ==> urls[j].path != path
    decreases |urls| - from
  {
    if from >= |urls| then None
    else if urls[from].path == path then Some(from)
    else FirstEntryFor(urls, path, from + 1)
  }

  /** `signedUrlsData.find((u) => u.path === doc.file_path)?.signedUrl`. */
  function UrlFor(urls: seq<SignedUrl>, path: string): (r: Option<string>)
    ensures (forall j :: 0 <= j < |urls| ==> urls[j].path != path) ==> r.None?
    ensures (exists j :: 0 <= j < |urls| && urls[j].path == path) ==>
              exists j :: 0 <= j < |urls| && urls[j].path == path && r == urls[j].signedUrl &&
                          forall i :: 0 <= i < j ==> urls[i].path != path
  {
    match FirstEntryFor(urls, path, 0)
    case None => None
    case Some(j) => urls[j].signedUrl
  }

  /** The documents sent back with their links: none when there are no
      documents or the store gave no answer (`urls` none); otherwise every
      document, each with the link of the first entry for its path. */
  function SignDocuments(docs: set<Document>, urls: Option<seq<SignedUrl>>): (r: set<SignedDocument>)
    ensures docs == {} || urls.None? ==> r == {}
    ensures urls.Some? ==> forall d :: d in docs ==> SignedDocument(d, UrlFor(urls.value, d.filePath)) in r
    ensures forall sd :: sd in r ==> sd.doc in docs && urls.Some? && sd.signedUrl == UrlFor(urls.value, sd.doc.filePath)
  {
    if docs == {} || urls.None? then {}
    else set d | d in docs :: SignedDocument(d, UrlFor(urls.value, d.filePath))
  }
}
