/**
 * The host's per-post attribute store (`update_post_meta`,
 * `delete_post_meta`) and the flag the plugin keeps in it.
 */
module PostMeta {
  import opened Wrappers

  type PostId = nat

  /** A meta row is addressed by post and key. */
  type MetaKey = (PostId, string)

  type Entries = map<MetaKey, string>

  const FLAG_KEY: string := "_slop_stopper_flagged"

  /** `update_post_meta(..., 1)` stores the value as the string "1". */
  const FLAG_VALUE: string := "1"

  function FlagOf(id: PostId): (k: MetaKey) { (id, FLAG_KEY) }

  /** The post carries the flag with the value the listing query asks for. */
  predicate IsFlagged(entries: Entries, id: PostId) {
    FlagOf(id) in entries && entries[FlagOf(id)] == FLAG_VALUE
  }

  /**
   * The posts the listing query (`meta_key` = the flag key, `meta_value` = 1)
   * returns, ignoring post type and status.
   */
  function Flagged(entries: Entries): (ids: set<PostId>)
    ensures forall id :: id in ids <==> IsFlagged(entries, id)
  {
    set k | k in entries && k.1 == FLAG_KEY && entries[k] == FLAG_VALUE :: k.0
  }

  /**
   * The post whose rows `update_post_meta` and `delete_post_meta` touch when
   * called with `id`: if `wp_is_post_revision(id)` names a parent (an
   * autosave is a revision too), the parent, and otherwise `id` itself.
   */
  function WriteTarget(id: PostId, revisionOf: Option<PostId>): PostId {
    match revisionOf
    case Some(parent) => parent
    case None => id
  }

  /** Every row other than `k` is the same in both stores. */
  predicate SameExcept(before: Entries, after: Entries, k: MetaKey) {
    before - {k} == after - {k}
  }

  class MetaStore {
    var entries: Entries

    constructor (initial: Entries)
      ensures entries == initial
    {
      entries := initial;
    }

    /**
     * `update_post_meta`: adds the row or overwrites its value, on the parent
     * when `id` is a revision (`revisionOf` is what `wp_is_post_revision`
     * answers for `id`).
     */
    method Update(id: PostId, revisionOf: Option<PostId>, key: string, value: string)
      modifies this
      ensures entries == old(entries)[(WriteTarget(id, revisionOf), key) := value]
    {
      var target := id;
      if revisionOf.Some? {
        target := revisionOf.value;
      }
      entries := entries[(target, key) := value];
    }

    /** `delete_post_meta`: removes the row if there is one, on the parent for a revision. */
    method Delete(id: PostId, revisionOf: Option<PostId>, key: string)
      modifies this
      ensures entries == old(entries) - {(WriteTarget(id, revisionOf), key)}
    {
      var target := id;
      if revisionOf.Some? {
        target := revisionOf.value;
      }
      entries := entries - {(target, key)};
    }
  }
}
