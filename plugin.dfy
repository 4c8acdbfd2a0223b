/**
 * The `Slop_Stopper` object: the two `save_post` handlers that write the
 * flag, the hook ordering that runs them on one save, and the settings-page
 * listing. The store is the host's; the phrase filter is fixed when the
 * plugin is loaded.
 */
module Plugin {
  import opened Wrappers
  import opened CaseFold
  import opened PostMeta
  import opened PhraseRegistry
  import opened Listing
  import opened Moderation

  class SlopStopper {
    const store: MetaStore
    /** What the `slop_stopper_phrases` filter returns, if anything hooks it. */
    const phraseFilter: Option<seq<string>>

    constructor (store: MetaStore, phraseFilter: Option<seq<string>>)
      ensures this.store == store && this.phraseFilter == phraseFilter
    {
      this.store := store;
      this.phraseFilter := phraseFilter;
    }

    function Phrases(): (ps: seq<string>) {
      GetPhrases(phraseFilter)
    }

    /**
     * `check_content`: skip internal saves and administrators, otherwise
     * scan the phrases in order; on the first hit flag the post and abort,
     * and if nothing matches remove the flag.
     */
    method CheckContent(postId: PostId, post: Post, req: Request) returns (d: Decision)
      modifies store
      ensures d == Decide(post, req, Phrases())
      ensures store.entries == AfterCheck(old(store.entries), WriteTarget(postId, post.revisionOf), d)
    {
      if post.revisionOf.Some? || post.isAutosave || req.doingAutosave {
        return Skipped(InternalSave);
      }
      if ADMINISTRATOR in req.roles {
        return Skipped(Administrator);
      }
      var content := post.content;
      var phrases := Phrases();
      var i := 0;
      while i < |phrases|
        invariant 0 <= i <= |phrases|
        invariant forall j :: 0 <= j < i ==> !ContainsCI(content, phrases[j])
        invariant store.entries == old(store.entries)
      {
        if ContainsCI(content, phrases[i]) {
          store.Update(postId, post.revisionOf, FLAG_KEY, FLAG_VALUE);
          return Hold(i);
        }
        i := i + 1;
      }
      store.Delete(postId, post.revisionOf, FLAG_KEY);
      return Allow;
    }

    /**
     * `save_metabox`: with a valid nonce, set the flag if the checkbox was
     * sent and remove it otherwise; without one, do nothing. There is no
     * revision guard, so a revision's save writes its parent's flag.
     */
    method SaveMetabox(postId: PostId, revisionOf: Option<PostId>, req: Request)
      modifies store
      ensures store.entries == AfterMetabox(old(store.entries), WriteTarget(postId, revisionOf), req)
    {
      if !req.nonce.Submitted? || !req.nonce.valid {
        return;
      }
      if req.flagChecked {
        store.Update(postId, revisionOf, FLAG_KEY, FLAG_VALUE);
      } else {
        store.Delete(postId, revisionOf, FLAG_KEY);
      }
    }

    /**
     * One `save_post` event. Both handlers are hooked at priority 10,
     * `check_content` first, so it runs first; a hold ends the request.
     */
    method OnSave(postId: PostId, post: Post, req: Request) returns (outcome: SaveOutcome)
      modifies store
      ensures SaveEvent(old(store.entries), postId, post, req, Phrases()) == SaveResult(outcome, store.entries)
    {
      var d := CheckContent(postId, post, req);
      if d.Hold? {
        return Aborted(d.at);
      }
      SaveMetabox(postId, post.revisionOf, req);
      return Completed(d);
    }

    /**
     * The flagged-posts table of the settings page: for every flagged post,
     * the phrases its current content contains. Nothing is written.
     */
    method FlaggedPostsTable(posts: map<PostId, string>) returns (rows: map<PostId, seq<string>>)
      ensures rows == FlaggedRows(store.entries, posts, Phrases())
    {
      var entries := store.entries;
      var phrases := Phrases();
      rows := CollectRows(Flagged(entries) * posts.Keys, posts, phrases);
      RowsAreFlaggedRows(rows, entries, posts, phrases);
    }
  }
}
