/** Vault plans and their operations (internal/model), with the two shape checks
    every policy check shares. Payloads are values: decoding JSON is not modelled,
    a payload of the wrong shape is `Malformed`. */
module Plans {
  import opened Paths
  import opened Text

  datatype Risk = Low | Medium | High

  datatype OpKind =
    | CreateNote | AppendNote | RewriteNote | MoveNote | WriteAgentReport
    | RenameNote | BulkRetag | BulkLinkRewrite | WriteProposal

  datatype Payload =
    | Content(content: string)
    | Move(destination: string, processingNote: string)
    | Rename(source: string, renamed: string)
    | Retag(retagged: seq<string>, addTags: seq<string>, removeTags: seq<string>)
    | Relink(fromPath: string, toPath: string, relinked: seq<string>)
    | Malformed

  datatype Operation = Operation(
    id: string, kind: OpKind, target: string, beforeHash: string,
    payload: Payload, reason: string, risk: Risk)

  datatype PlanStatus =
    | Proposed | AwaitingApproval | Approved | Rejected | Applying
    | Applied | ProposalWritten | Failed | Conflict

  datatype Plan = Plan(
    id: string, jobId: string, risk: Risk, requiresApproval: bool,
    summary: string, sourceRefs: seq<string>, targets: seq<string>,
    ops: seq<Operation>, status: PlanStatus)

  /** SHA-256 is a parameter: any function from contents to digests. */
  type Hasher = string -> string

  predicate Injective(hash: Hasher, a: string, b: string) {
    hash(a) == hash(b) ==> a == b
  }

  // ---- validateRelativeVaultPath ----

  /** A clean relative path without hidden or parent segments: exactly the paths
      whose every segment is non-empty and does not start with a dot. */
  predicate ValidVaultPath(path: string) {
    forall s :: s in Segments(path) ==> s != "" && s[0] != '.'
  }

  /** The check step by step: a relative path that cleaning leaves alone, without parent
      or hidden segments. */
  predicate CheckedPath(path: string) {
    && path != "" && path[0] != '/'
    && Clean(path) != "." && Clean(path) == path
    && forall part :: part in Segments(Clean(path)) ==> part != ".." && !HasPrefix(part, ".")
  }

  /** The steps let through exactly the paths of visible segments. */
  lemma CheckedPathMeans(path: string)
    ensures CheckedPath(path) <==> ValidVaultPath(path)
  {
    hide CheckedPath, ValidVaultPath;
    if CheckedPath(path) { CheckedIsValid(path); }
    if ValidVaultPath(path) { ValidIsChecked(path); }
  }

  lemma CheckedIsValid(path: string)
    requires CheckedPath(path)
    ensures ValidVaultPath(path)
  {
    SegmentsMean(path);
    CleanLeaves(Segments(path), []);
    SegmentsJoined(CleanSegments(Segments(path), []));
    hide Segments, CleanSegments, JoinBy;
    forall s | s in Segments(path) ensures s != "" && s[0] != '.' {
      assert s[..1] == [s[0]];
    }
  }

  lemma ValidIsChecked(path: string)
    requires ValidVaultPath(path)
    ensures CheckedPath(path)
  {
    SegmentsMean(path);
    forall i | 0 <= i < |Segments(path)| ensures Segments(path)[i] != "" && Segments(path)[i][0] != '.' {
      assert Segments(path)[i] in Segments(path);
    }
    CleanKeeps(Segments(path), []);
    assert [] + Segments(path) == Segments(path);
    FirstSegment(path);
    hide Segments, CleanSegments, JoinBy;
    forall s | s in Segments(path) ensures s != ".." && !HasPrefix(s, ".") {
      assert ".."[0] == '.' && "."[0] == '.';
    }
  }

  lemma FirstSegment(path: string)
    requires ValidVaultPath(path)
    ensures path != "" && path[0] != '/' && path != "."
  {
    assert "" in Segments("") && "." in Segments(".");
    assert Segments(path)[0] in Segments(path);
  }

  // ---- validateMutatingBeforeHash ----

  const HEX_DIGITS: string := "0123456789abcdefABCDEF"

  predicate ValidDigest(hash: string) {
    var h := Trim(hash);
    |h| == 64 && forall c :: c in h ==> c in HEX_DIGITS
  }
}
