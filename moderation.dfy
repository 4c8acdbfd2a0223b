/**
 * The save-time decision of `Slop_Stopper::check_content`, the manual
 * override of `Slop_Stopper::save_metabox`, and their composition on one
 * `save_post` event, as functions of the store, the post and the request.
 */
module Moderation {
  import opened Wrappers
  import opened CaseFold
  import opened PostMeta
  import opened Listing

  const ADMINISTRATOR: string := "administrator"

  /**
   * What the save handler sees of the post being saved: its content, the
   * parent `wp_is_post_revision` names for it (an autosave is a revision of
   * its parent), and what `wp_is_post_autosave` answers.
   */
  datatype Post = Post(content: string, revisionOf: Option<PostId>, isAutosave: bool)

  /** The `slop_stopper_nonce` form field: absent, or present and (in)valid. */
  datatype Nonce = Missing | Submitted(valid: bool)

  /**
   * The request a save happens in: the current user's roles, whether
   * `DOING_AUTOSAVE` is defined and true, the metabox nonce and whether the
   * `slop_stopper_flagged` checkbox was submitted.
   */
  datatype Request = Request(roles: seq<string>, doingAutosave: bool, nonce: Nonce, flagChecked: bool)

  datatype SkipReason = InternalSave | Administrator

  /**
   * The result of `check_content`: it returned early, it found nothing, or
   * the phrase at index `at` matched and the request was aborted.
   */
  datatype Decision = Skipped(reason: SkipReason) | Allow | Hold(at: nat)

  /** A save event either dies in `check_content` or runs both handlers. */
  datatype SaveOutcome = Aborted(at: nat) | Completed(check: Decision)

  datatype SaveResult = SaveResult(outcome: SaveOutcome, entries: Entries)

  /** A revision, an autosave, or a save while `DOING_AUTOSAVE` is on. */
  predicate IsInternalSave(post: Post, req: Request) {
    post.revisionOf.Some? || post.isAutosave || req.doingAutosave
  }

  predicate IsAdministrator(req: Request) {
    ADMINISTRATOR in req.roles
  }

  predicate MatchesAny(content: string, phrases: seq<string>) {
    exists j :: 0 <= j < |phrases| && ContainsCI(content, phrases[j])
  }

  /** The index of the first phrase, in list order, that the content contains. */
  function FirstMatch(content: string, phrases: seq<string>): (r: Option<nat>)
    ensures r.None? <==> !MatchesAny(content, phrases)
    ensures r.Some? ==>
      && r.value < |phrases|
      && ContainsCI(content, phrases[r.value])
      && forall j :: 0 <= j < r.value ==> !ContainsCI(content, phrases[j])
  {
    if phrases == [] then None
    else if ContainsCI(content, phrases[0]) then Some(0)
    else
      match FirstMatch(content, phrases[1..])
      case None =>
        assert forall j :: 1 <= j < |phrases| ==> phrases[j] == phrases[1..][j - 1];
        None
      case Some(i) =>
        assert forall j :: 1 <= j <= i ==> phrases[j] == phrases[1..][j - 1];
        Some(i + 1)
  }

  /** What `check_content` decides for a post saved in a request. */
  function Decide(post: Post, req: Request, phrases: seq<string>): (d: Decision)
    ensures d == Skipped(InternalSave) <==> IsInternalSave(post, req)
    ensures d == Skipped(Administrator) <==> !IsInternalSave(post, req) && IsAdministrator(req)
    ensures d.Hold? <==>
      !IsInternalSave(post, req) && !IsAdministrator(req) && MatchesAny(post.content, phrases)
    ensures d.Hold? ==>
      && d.at < |phrases|
      && ContainsCI(post.content, phrases[d.at])
      && forall j :: 0 <= j < d.at ==> !ContainsCI(post.content, phrases[j])
  {
    if IsInternalSave(post, req) then Skipped(InternalSave)
    else if IsAdministrator(req) then Skipped(Administrator)
    else
      match FirstMatch(post.content, phrases)
      case Some(i) => Hold(i)
      case None => Allow
  }

  /**
   * The store after `check_content` has acted on decision `d`; `id` is the
   * post its meta calls reach.
   */
  function AfterCheck(entries: Entries, id: PostId, d: Decision): (r: Entries)
    ensures SameExcept(entries, r, FlagOf(id))
    ensures d.Hold? ==> IsFlagged(r, id)
    ensures d.Allow? ==> FlagOf(id) !in r
    ensures d.Skipped? ==> r == entries
  {
    match d
    case Hold(_) => entries[FlagOf(id) := FLAG_VALUE]
    case Allow => entries - {FlagOf(id)}
    case Skipped(_) => entries
  }

  /** The nonce was sent and `wp_verify_nonce` accepts it. */
  predicate NonceValid(n: Nonce) {
    n.Submitted? && n.valid
  }

  /**
   * The store after `save_metabox`; `id` is the post its meta calls reach,
   * which for a revision or an autosave is the parent.
   */
  function AfterMetabox(entries: Entries, id: PostId, req: Request): (r: Entries)
    ensures SameExcept(entries, r, FlagOf(id))
    ensures !NonceValid(req.nonce) ==> r == entries
    ensures NonceValid(req.nonce) ==> (IsFlagged(r, id) <==> req.flagChecked)
    ensures NonceValid(req.nonce) && !req.flagChecked ==> FlagOf(id) !in r
  {
    if !NonceValid(req.nonce) then entries
    else if req.flagChecked then entries[FlagOf(id) := FLAG_VALUE]
    else entries - {FlagOf(id)}
  }

  /**
   * One `save_post` event for post `id`: `check_content` runs first; if it
   * holds, the request dies and `save_metabox` never runs. Both write
   * through the meta functions, so for a revision or an autosave the row
   * that can change is the parent's.
   */
  function SaveEvent(entries: Entries, id: PostId, post: Post, req: Request, phrases: seq<string>)
    : (s: SaveResult)
    ensures SameExcept(entries, s.entries, FlagOf(WriteTarget(id, post.revisionOf)))
    ensures s.outcome.Aborted? <==> Decide(post, req, phrases).Hold?
  {
    var target := WriteTarget(id, post.revisionOf);
    var d := Decide(post, req, phrases);
    var checked := AfterCheck(entries, target, d);
    if d.Hold? then SaveResult(Aborted(d.at), checked)
    else SaveResult(Completed(d), AfterMetabox(checked, target, req))
  }

  // Properties of check_content

  /** Revisions, autosaves and background saves never hold and leave the store alone. */
  lemma InternalSaveUntouched(entries: Entries, id: PostId, post: Post, req: Request, phrases: seq<string>)
    requires IsInternalSave(post, req)
    ensures !Decide(post, req, phrases).Hold?
    ensures AfterCheck(entries, id, Decide(post, req, phrases)) == entries
  {
  }

  /** An administrator is never scanned; the flag stays as it was, present or absent. */
  lemma AdministratorKeepsFlag(entries: Entries, id: PostId, post: Post, req: Request, phrases: seq<string>)
    requires !IsInternalSave(post, req) && IsAdministrator(req)
    ensures Decide(post, req, phrases) == Skipped(Administrator)
    ensures AfterCheck(entries, id, Decide(post, req, phrases)) == entries
  {
  }

  /**
   * A non-administrator whose content contains the `j`-th phrase is held, at
   * that phrase or an earlier one, and the post is flagged.
   */
  lemma MatchHolds(entries: Entries, id: PostId, post: Post, req: Request, phrases: seq<string>, j: nat)
    requires !IsInternalSave(post, req) && !IsAdministrator(req)
    requires j < |phrases| && ContainsCI(post.content, phrases[j])
    ensures Decide(post, req, phrases).Hold? && Decide(post, req, phrases).at <= j
    ensures IsFlagged(AfterCheck(entries, id, Decide(post, req, phrases)), id)
  {
  }

  /** A non-administrator whose content matches nothing is allowed and the flag is removed. */
  lemma NoMatchClears(entries: Entries, id: PostId, post: Post, req: Request, phrases: seq<string>)
    requires !IsInternalSave(post, req) && !IsAdministrator(req)
    requires forall j :: 0 <= j < |phrases| ==> !ContainsCI(post.content, phrases[j])
    ensures Decide(post, req, phrases) == Allow
    ensures FlagOf(id) !in AfterCheck(entries, id, Decide(post, req, phrases))
  {
  }

  // The composed save_post event

  /**
   * A held save ends with the post flagged whatever the metabox sent: the
   * store is the one `check_content` left, since the override never runs.
   */
  lemma HeldSaveIgnoresMetabox(entries: Entries, id: PostId, post: Post, req: Request, phrases: seq<string>)
    requires Decide(post, req, phrases).Hold?
    ensures SaveEvent(entries, id, post, req, phrases).outcome == Aborted(Decide(post, req, phrases).at)
    ensures SaveEvent(entries, id, post, req, phrases).entries
      == AfterCheck(entries, id, Decide(post, req, phrases))
    ensures IsFlagged(SaveEvent(entries, id, post, req, phrases).entries, id)
  {
  }

  /**
   * With a valid nonce, a completed save leaves the flag of the post the
   * writes reach exactly as the checkbox says.
   */
  lemma CompletedSaveFollowsCheckbox(entries: Entries, id: PostId, post: Post, req: Request, phrases: seq<string>)
    requires !Decide(post, req, phrases).Hold? && NonceValid(req.nonce)
    ensures IsFlagged(SaveEvent(entries, id, post, req, phrases).entries, WriteTarget(id, post.revisionOf))
      <==> req.flagChecked
  {
  }

  /**
   * A save of a revision or an autosave, such as the one a preview makes, is
   * never scanned, by anyone: its content plays no part, and with a valid
   * nonce the metabox sets or clears the parent's flag as the checkbox says.
   * The revision's own row is not touched.
   */
  lemma RevisionSaveWritesParent(entries: Entries, id: PostId, parent: PostId, post: Post, req: Request,
                                 phrases: seq<string>, other: string)
    requires post.revisionOf == Some(parent)
    ensures SaveEvent(entries, id, post, req, phrases).outcome == Completed(Skipped(InternalSave))
    ensures SaveEvent(entries, id, post, req, phrases) == SaveEvent(entries, id, post.(content := other), req, phrases)
    ensures SameExcept(entries, SaveEvent(entries, id, post, req, phrases).entries, FlagOf(parent))
    ensures NonceValid(req.nonce) ==>
      (IsFlagged(SaveEvent(entries, id, post, req, phrases).entries, parent) <==> req.flagChecked)
    ensures !NonceValid(req.nonce) ==> SaveEvent(entries, id, post, req, phrases).entries == entries
  {
  }

  /**
   * Without a valid nonce a completed save leaves the flag as `check_content`
   * left it: removed for a non-administrator, untouched for an administrator
   * or an internal save.
   */
  lemma CompletedSaveWithoutNonce(entries: Entries, id: PostId, post: Post, req: Request, phrases: seq<string>)
    requires !Decide(post, req, phrases).Hold? && !NonceValid(req.nonce)
    ensures SaveEvent(entries, id, post, req, phrases).entries
      == AfterCheck(entries, id, Decide(post, req, phrases))
    ensures Decide(post, req, phrases).Skipped? ==> SaveEvent(entries, id, post, req, phrases).entries == entries
    ensures Decide(post, req, phrases) == Allow ==> FlagOf(id) !in SaveEvent(entries, id, post, req, phrases).entries
  {
  }

  // The listing against the decision

  /**
   * The first phrase the listing shows for a post is the one the scan stopped
   * at, and the listing is empty exactly when the scan finds nothing.
   */
  lemma {:induction false} FirstMatchHeadsRow(content: string, phrases: seq<string>)
    ensures FirstMatch(content, phrases).None? <==> FoundPhrases(content, phrases) == []
    ensures FirstMatch(content, phrases).Some? ==>
      FoundPhrases(content, phrases)[0] == phrases[FirstMatch(content, phrases).value]
  {
    if phrases != [] && !ContainsCI(content, phrases[0]) {
      FirstMatchHeadsRow(content, phrases[1..]);
    }
  }

  /**
   * A post held by a save is listed afterwards under the same phrase list,
   * and when the listing reads the same text the check scanned, its row
   * starts with the phrase that triggered the hold.
   */
  lemma HeldPostListed(entries: Entries, id: PostId, post: Post, req: Request, phrases: seq<string>,
                       posts: map<PostId, string>)
    requires Decide(post, req, phrases).Hold?
    requires id in posts && posts[id] == post.content
    ensures id in FlaggedRows(SaveEvent(entries, id, post, req, phrases).entries, posts, phrases)
    ensures FlaggedRows(SaveEvent(entries, id, post, req, phrases).entries, posts, phrases)[id] != []
    ensures FlaggedRows(SaveEvent(entries, id, post, req, phrases).entries, posts, phrases)[id][0]
      == phrases[Decide(post, req, phrases).at]
  {
    FirstMatchHeadsRow(post.content, phrases);
  }
}
