/** Draft versions of a case's document: naming the newest version as a
    milestone, the version history, one version's content, and the version
    flagged as latest. */
module Drafts {
  import opened Common
  import opened Tables
  import opened Ordering

  /** A history entry: a version without its content. */
  datatype VersionSummary = VersionSummary(id: Id, createdAt: int, versionName: Option<string>, isMilestone: bool)

  function Summary(v: DraftVersion): VersionSummary {
    VersionSummary(v.id, v.createdAt, v.versionName, v.isMilestone)
  }

  function CreatedAt(v: DraftVersion): int { v.createdAt }

  /** The versions of one case, in table order. */
  function VersionsOf(versions: seq<DraftVersion>, caseId: Id): (r: seq<DraftVersion>)
    ensures forall v :: v in r <==> v in versions && v.caseId == caseId
  {
    var r := Filter(versions, (v: DraftVersion) => v.caseId == caseId);
    assert forall v :: v in r <==> v in versions && v.caseId == caseId by {
      forall v ensures v in r <==> v in versions && v.caseId == caseId {
        FilterMembers(versions, (v: DraftVersion) => v.caseId == caseId, v);
      }
    }
    r
  }

  /** `.order("created_at", { ascending: false })` over the case's versions. */
  function NewestFirst(versions: seq<DraftVersion>, caseId: Id): (r: seq<DraftVersion>)
    ensures SortedDesc(r, CreatedAt)
    ensures multiset(r) == multiset(VersionsOf(versions, caseId))
  {
    SortDesc(VersionsOf(versions, caseId), CreatedAt)
  }

  /** The newest version of the case (`.limit(1).single()` on that order):
      none when the case has no version, otherwise one of its versions with
      no later `created_at` among them. */
  function Newest(versions: seq<DraftVersion>, caseId: Id): (r: Option<DraftVersion>)
    ensures r.None? <==> forall v :: v in versions ==> v.caseId != caseId
    ensures r.Some? ==> r.value in versions && r.value.caseId == caseId
    ensures r.Some? ==> forall v :: v in versions && v.caseId == caseId ==> v.createdAt <= r.value.createdAt
  {
    var sorted := NewestFirst(versions, caseId);
    if sorted == [] then
      assert VersionsOf(versions, caseId) == [] by {
        assert |multiset(VersionsOf(versions, caseId))| == |multiset(sorted)| == 0;
      }
      None
    else
      assert sorted[0] in multiset(VersionsOf(versions, caseId));
      assert forall v :: v in versions && v.caseId == caseId ==> v.createdAt <= sorted[0].createdAt by {
        forall v | v in versions && v.caseId == caseId ensures v.createdAt <= sorted[0].createdAt {
          SortDescHeadIsMax(VersionsOf(versions, caseId), CreatedAt, v);
        }
      }
      Some(sorted[0])
  }

  /** The update that makes version `id` a milestone named `name`: that row
      gets the name and the flag, and every other row, and every other
      column of that row, stays as it was. */
  function MarkMilestone(versions: seq<DraftVersion>, id: Id, name: string): (r: seq<DraftVersion>)
    ensures |r| == |versions|
    ensures forall k :: 0 <= k < |r| ==>
              && r[k].id == versions[k].id && r[k].caseId == versions[k].caseId
              && r[k].fullContent == versions[k].fullContent && r[k].createdAt == versions[k].createdAt
              && r[k].isLatest == versions[k].isLatest
              && (versions[k].id == id ==> r[k].versionName == Some(name) && r[k].isMilestone)
              && (versions[k].id != id ==> r[k] == versions[k])
  {
    seq(|versions|, k requires 0 <= k < |versions| =>
      if versions[k].id == id then versions[k].(versionName := Some(name), isMilestone := true) else versions[k])
  }

  /** Naming a milestone keeps the version ids distinct. */
  lemma MarkMilestoneKeepsIds(versions: seq<DraftVersion>, id: Id, name: string)
    requires VersionIdsDistinct(versions)
    ensures VersionIdsDistinct(MarkMilestone(versions, id, name))
  {
    var r := MarkMilestone(versions, id, name);
    forall i, j | 0 <= i < j < |r| ensures r[i].id != r[j].id {
      assert r[i].id == versions[i].id && r[j].id == versions[j].id;
    }
  }

  /** `createNamedVersion`. A missing or empty name is refused with 400; a
      case the requester does not own, or one without versions, gives 500.
      Otherwise the newest version of the case becomes a milestone with that
      name, whichever version is flagged latest. */
  method CreateNamedVersion(db: Db, caseId: Id, requester: UserId, versionName: Option<string>)
    returns (reply: Reply<DraftVersion>)
    requires db.Valid()
    modifies db`versions
    ensures db.Valid()
    ensures (versionName.None? || versionName.value == []) ==>
              reply == Fail(HttpBadRequest, "A version name is required.") && db.versions == old(db.versions)
    ensures versionName.Some? && versionName.value != [] &&
            (!Owns(db.cases, caseId, requester) || Newest(old(db.versions), caseId).None?) ==>
              reply == Fail(HttpServerError, "Failed to create milestone.") && db.versions == old(db.versions)
    ensures versionName.Some? && versionName.value != [] &&
            Owns(db.cases, caseId, requester) && Newest(old(db.versions), caseId).Some? ==>
              var n := Newest(old(db.versions), caseId).value;
              && reply == Ok(HttpOk, n.(versionName := versionName, isMilestone := true))
              && db.versions == MarkMilestone(old(db.versions), n.id, versionName.value)
  {
    if versionName.None? || versionName.value == [] {
      return Fail(HttpBadRequest, "A version name is required.");
    }
    if !Owns(db.cases, caseId, requester) {
      return Fail(HttpServerError, "Failed to create milestone.");
    }
    var newest := Newest(db.versions, caseId);
    if newest.None? {
      return Fail(HttpServerError, "Failed to create milestone.");
    }
    var n := newest.value;
    MarkMilestoneKeepsIds(db.versions, n.id, versionName.value);
    db.versions := MarkMilestone(db.versions, n.id, versionName.value);
    reply := Ok(HttpOk, n.(versionName := versionName, isMilestone := true));
  }

  /** The version that is named is the newest by `created_at`, not the one
      flagged latest: once a newer version of the case exists, a version
      flagged latest (an older one restored, say) is never the one named. */
  lemma MilestoneIgnoresLatestFlag(versions: seq<DraftVersion>, caseId: Id, flagged: DraftVersion, newer: DraftVersion)
    requires flagged in versions && flagged.caseId == caseId && flagged.isLatest
    requires newer in versions && newer.caseId == caseId && newer.createdAt > flagged.createdAt
    ensures Newest(versions, caseId).Some?
    ensures Newest(versions, caseId).value != flagged
    ensures Newest(versions, caseId).value.createdAt >= newer.createdAt
  {
  }

  /** `getDraftHistory`: for the owner, every version of the case newest
      first, without content; otherwise 500. */
  function History(cases: map<Id, Case>, versions: seq<DraftVersion>, caseId: Id, requester: UserId)
    : (r: Reply<seq<VersionSummary>>)
    ensures !Owns(cases, caseId, requester) ==> r == Fail(HttpServerError, "Failed to fetch history.")
    ensures Owns(cases, caseId, requester) ==>
              && r.Ok? && r.code == HttpOk
              && |r.body| == |VersionsOf(versions, caseId)|
              && (forall i, j :: 0 <= i < j < |r.body| ==> r.body[i].createdAt >= r.body[j].createdAt)
  {
    if !Owns(cases, caseId, requester) then Fail(HttpServerError, "Failed to fetch history.")
    else
      var sorted := NewestFirst(versions, caseId);
      assert |sorted| == |VersionsOf(versions, caseId)| by {
        assert |multiset(sorted)| == |multiset(VersionsOf(versions, caseId))|;
      }
      Ok(HttpOk, seq(|sorted|, i requires 0 <= i < |sorted| => Summary(sorted[i])))
  }

  /** The ordered versions are exactly the case's versions. */
  lemma NewestFirstMembers(versions: seq<DraftVersion>, caseId: Id)
    ensures forall w :: w in NewestFirst(versions, caseId) <==> w in versions && w.caseId == caseId
  {
    var sorted := NewestFirst(versions, caseId);
    forall w ensures w in sorted <==> w in versions && w.caseId == caseId {
      assert w in sorted <==> w in multiset(sorted);
      assert w in VersionsOf(versions, caseId) <==> w in multiset(VersionsOf(versions, caseId));
    }
  }

  /** Entry `i` of the history summarises the `i`-th newest version. */
  lemma HistoryEntry(cases: map<Id, Case>, versions: seq<DraftVersion>, caseId: Id, requester: UserId)
    requires Owns(cases, caseId, requester)
    ensures var sorted := NewestFirst(versions, caseId);
            var body := History(cases, versions, caseId, requester).body;
            |body| == |sorted| && forall i :: 0 <= i < |body| ==> body[i] == Summary(sorted[i])
  { }

  /** The history lists each version of the case and nothing else. */
  lemma HistoryListsExactlyTheCase(cases: map<Id, Case>, versions: seq<DraftVersion>, caseId: Id,
                                   requester: UserId, v: DraftVersion)
    requires Owns(cases, caseId, requester)
    ensures v in versions && v.caseId == caseId ==> Summary(v) in History(cases, versions, caseId, requester).body
    ensures forall s :: s in History(cases, versions, caseId, requester).body ==>
              exists w :: w in versions && w.caseId == caseId && Summary(w) == s
  {
    var sorted := NewestFirst(versions, caseId);
    var body := History(cases, versions, caseId, requester).body;
    NewestFirstMembers(versions, caseId);
    HistoryEntry(cases, versions, caseId, requester);
    if v in versions && v.caseId == caseId {
      var i :| 0 <= i < |sorted| && sorted[i] == v;
      assert body[i] == Summary(v);
    }
    forall s | s in body ensures exists w :: w in versions && w.caseId == caseId && Summary(w) == s {
      var i :| 0 <= i < |body| && body[i] == s;
      assert sorted[i] in sorted;
    }
  }

  /** With distinct ids, at most one row passes a test that fixes the id. */
  lemma {:induction false} AtMostOneWithId(versions: seq<DraftVersion>, p: DraftVersion -> bool, id: Id)
    requires VersionIdsDistinct(versions)
    requires forall w :: p(w) ==> w.id == id
    ensures |Filter(versions, p)| <= 1
    decreases |versions|
  {
    if versions != [] {
      var tail := versions[1..];
      assert VersionIdsDistinct(tail) by {
        forall i, j | 0 <= i < j < |tail| ensures tail[i].id != tail[j].id {
          assert tail[i] == versions[i + 1] && tail[j] == versions[j + 1];
        }
      }
      AtMostOneWithId(tail, p, id);
      if p(versions[0]) {
        forall x | x in tail ensures !p(x) {
          var k :| 0 <= k < |tail| && tail[k] == x;
          assert versions[k + 1] == x;
          assert x.id != versions[0].id;
        }
        var r := Filter(tail, p);
        assert multiset(r) == multiset{};
      }
    }
  }

  /** The rows `getDraftVersionContent` selects: the version with that id,
      if its case belongs to the requester; with distinct ids, at most one. */
  function OwnedVersion(cases: map<Id, Case>, versions: seq<DraftVersion>, versionId: Id, requester: UserId)
    : (r: seq<DraftVersion>)
    ensures forall v :: v in r <==> v in versions && v.id == versionId && Owns(cases, v.caseId, requester)
    ensures VersionIdsDistinct(versions) ==> |r| <= 1
  {
    var p := (v: DraftVersion) => v.id == versionId && Owns(cases, v.caseId, requester);
    var r := Filter(versions, p);
    assert forall v :: v in r <==> v in versions && p(v) by {
      forall v ensures v in r <==> v in versions && p(v) {
        FilterMembers(versions, p, v);
      }
    }
    assert VersionIdsDistinct(versions) ==> |r| <= 1 by {
      if VersionIdsDistinct(versions) {
        AtMostOneWithId(versions, p, versionId);
      }
    }
    r
  }

  /** `getDraftVersionContent`: the content when exactly one row matches
      (`.single()`), otherwise 500. */
  function VersionContent(cases: map<Id, Case>, versions: seq<DraftVersion>, versionId: Id, requester: UserId)
    : (r: Reply<string>)
    ensures r.Ok? ==>
              && r.code == HttpOk
              && exists v :: v in versions && v.id == versionId && Owns(cases, v.caseId, requester) && v.fullContent == r.body
    ensures r.Fail? ==> r == Fail(HttpServerError, "Failed to fetch version content.")
  {
    var rows := OwnedVersion(cases, versions, versionId, requester);
    if |rows| == 1 then
      assert rows[0] in rows;
      Ok(HttpOk, rows[0].fullContent)
    else Fail(HttpServerError, "Failed to fetch version content.")
  }

  /** With distinct version ids, the owner of a version's case gets exactly
      that version's content. */
  lemma OwnerReadsVersion(cases: map<Id, Case>, versions: seq<DraftVersion>, v: DraftVersion, requester: UserId)
    requires VersionIdsDistinct(versions) && v in versions && Owns(cases, v.caseId, requester)
    ensures VersionContent(cases, versions, v.id, requester) == Ok(HttpOk, v.fullContent)
  {
    var rows := OwnedVersion(cases, versions, v.id, requester);
    assert v in rows;
    assert rows == [rows[0]];
  }

  /** Someone who does not own the version's case is refused. */
  lemma OthersCannotReadVersion(cases: map<Id, Case>, versions: seq<DraftVersion>, versionId: Id, requester: UserId)
    requires forall v :: v in versions && v.id == versionId ==> !Owns(cases, v.caseId, requester)
    ensures VersionContent(cases, versions, versionId, requester).Fail?
  {
    var rows := OwnedVersion(cases, versions, versionId, requester);
    if |rows| == 1 {
      assert rows[0] in rows;
    }
  }

  /** The rows `getLatestDraft` selects: the case's versions flagged latest. */
  function LatestRows(versions: seq<DraftVersion>, caseId: Id): (r: seq<DraftVersion>)
    ensures forall v :: v in r <==> v in versions && v.caseId == caseId && v.isLatest
  {
    var p := (v: DraftVersion) => v.caseId == caseId && v.isLatest;
    var r := Filter(versions, p);
    assert forall v :: v in r <==> v in versions && p(v) by {
      forall v ensures v in r <==> v in versions && p(v) {
        FilterMembers(versions, p, v);
      }
    }
    r
  }

  /** `getLatestDraft` (`.maybeSingle()`): the content of the case's version
      flagged latest, an empty document when there is none, and 500 when
      more than one is flagged. The requester plays no part. */
  function Latest(versions: seq<DraftVersion>, caseId: Id, requester: UserId): (r: Reply<string>)
    ensures r.Fail? <==> |LatestRows(versions, caseId)| >= 2
    ensures r.Fail? ==> r == Fail(HttpServerError, "Failed to fetch latest draft.")
    ensures r.Ok? ==> r.code == HttpOk
    ensures (forall v :: v in versions ==> !(v.caseId == caseId && v.isLatest)) ==> r == Ok(HttpOk, "")
    ensures |LatestRows(versions, caseId)| == 1 ==>
              forall v :: v in versions && v.caseId == caseId && v.isLatest ==> r == Ok(HttpOk, v.fullContent)
    ensures r.Ok? && r.body != [] ==>
              exists v :: v in versions && v.caseId == caseId && v.isLatest && v.fullContent == r.body
  {
    var rows := LatestRows(versions, caseId);
    if |rows| == 0 then Ok(HttpOk, "")
    else if |rows| == 1 then
      assert rows[0] in rows;
      assert forall v :: v in rows ==> v == rows[0];
      Ok(HttpOk, rows[0].fullContent)
    else Fail(HttpServerError, "Failed to fetch latest draft.")
  }

  /** Anyone asking gets the same answer: there is no ownership check. */
  lemma LatestIgnoresRequester(versions: seq<DraftVersion>, caseId: Id, u1: UserId, u2: UserId)
    ensures Latest(versions, caseId, u1) == Latest(versions, caseId, u2)
  {
  }

  /** `autoSaveVersion`. The `handle_new_draft_version` procedure is not part
      of this model: `rpc` is the version table it leaves, or none when it
      fails, in which case nothing changes. */
  method AutoSaveVersion(db: Db, rpc: Option<seq<DraftVersion>>) returns (reply: Reply<string>)
    requires db.Valid()
    requires rpc.Some? ==> VersionIdsDistinct(rpc.value)
    modifies db`versions
    ensures db.Valid()
    ensures rpc.None? ==> reply == Fail(HttpServerError, "Failed to auto-save.") && db.versions == old(db.versions)
    ensures rpc.Some? ==> reply == Ok(HttpOk, "Auto-saved successfully.") && db.versions == rpc.value
  {
    if rpc.None? {
      return Fail(HttpServerError, "Failed to auto-save.");
    }
    db.versions := rpc.value;
    reply := Ok(HttpOk, "Auto-saved successfully.");
  }

  /** `restoreVersion`, with the `restore_draft_version` procedure as `rpc`
      in the same way. */
  method RestoreVersion(db: Db, rpc: Option<seq<DraftVersion>>) returns (reply: Reply<string>)
    requires db.Valid()
    requires rpc.Some? ==> VersionIdsDistinct(rpc.value)
    modifies db`versions
    ensures db.Valid()
    ensures rpc.None? ==> reply == Fail(HttpServerError, "Failed to restore version.") && db.versions == old(db.versions)
    ensures rpc.Some? ==> reply == Ok(HttpOk, "Version restored successfully.") && db.versions == rpc.value
  {
    if rpc.None? {
      return Fail(HttpServerError, "Failed to restore version.");
    }
    db.versions := rpc.value;
    reply := Ok(HttpOk, "Version restored successfully.");
  }
}
