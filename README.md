# Slop Stopper moderation gate, modelled in Dafny

Slop Stopper is a WordPress plugin that, when a non-administrator saves a
post whose content contains one of a list of phrases ("digital landscape",
"delve", ...), flags the post for review and aborts the save request. This project models its moderation core,
class `Slop_Stopper` in `slop-stopper.php`:

- the phrase list (`get_phrases`) with the `slop_stopper_phrases` filter as an
  optional replacement list (module `PhraseRegistry`);
- `stripos` as PHP 8 performs it: ASCII-only lower-casing of both strings,
  then a substring test, an empty needle being found (module `CaseFold`);
- the per-post meta store and the `_slop_stopper_flagged` row, value "1"
  (module `PostMeta`, class `MetaStore` standing for `update_post_meta` and
  `delete_post_meta`);
- the save-time check (`check_content`), the manual override (`save_metabox`)
  and one `save_post` event running both in hook order, first as functions of
  the store (module `Moderation`) and then as methods of class `SlopStopper`
  that update a `MetaStore` in place and are proved equal to those functions
  (module `Plugin`);
- the flagged-posts listing of the settings page, which re-scans the text
  `get_the_content()` gives for every flagged post against the current list
  (module `Listing`);
- worked examples: a held author, a skipped administrator, a hand-flagged
  post with an empty row (module `Scenarios`).

The check's decision is a typed value: `Skipped(InternalSave)` for a revision,
an autosave or a save under `DOING_AUTOSAVE`; `Skipped(Administrator)`; `Allow`;
and `Hold(at)`, where `at` is the index of the first matching phrase. A hold
stands for `wp_die`: `OnSave` returns `Aborted` and the metabox handler never
runs.

An administrator's save is a skip, not an allow: `check_content` returns
before scanning (slop-stopper.php:168-171), exactly as for an internal save,
so the model gives `Skipped(Administrator)` and leaves the flag as it was. The
filtered list is never deduplicated, so a phrase listed twice is matched and
listed twice (`FoundPhrasesCount`).

Both handlers write through `update_post_meta` and `delete_post_meta`, which
send a revision's writes to its parent post (`PostMeta.WriteTarget`); an
autosave is a revision of its parent. `check_content` skips revisions and
autosaves, but `save_metabox` (slop-stopper.php:260-270) has no such guard.
So a preview from the classic editor, which saves the edit form as an
autosave, sets or clears the parent's flag as the checkbox says, with no scan
and for any user (`RevisionSaveWritesParent`, `PreviewUnflagsParent`).

Inputs that the host supplies become parameters: the current user's roles,
`DOING_AUTOSAVE`, the parent a revision belongs to, whether the post is an autosave, the metabox
nonce (missing, or present and valid or invalid) and whether the checkbox was
submitted, the post contents the listing reads, and the filter's result.

## Model

| member | source | states |
|---|---|---|
| `CaseFold.Lower` | slop-stopper.php:177 | The folded character is never an ASCII capital; a capital moves by 32 to its lower-case letter and every other character is kept. |
| `CaseFold.ContainsCIEmbedded` | slop-stopper.php:177 | Text holding the phrase in any casing, with anything around it, matches the phrase. |
| `CaseFold.ContainsCISplits` | slop-stopper.php:177 | Every match is such an occurrence: the text splits into a prefix, a part that folds like the phrase, and a suffix. |
| `CaseFold.NotContainsCIMissingChar` | slop-stopper.php:177 | If a letter of the phrase appears in the text in neither case, the phrase does not match. |
| `CaseFold.LowerStrConcat` | slop-stopper.php:177 | Folding a concatenation folds each part. |
| `PhraseRegistry.GetPhrases` | slop-stopper.php:204-214 | Without a filter the list is the six base phrases in their source order; with one it is exactly what the filter returns. |
| `PhraseRegistry.BasePhrasesDistinct` | slop-stopper.php:205-212 | The six base phrases are pairwise distinct and non-empty. |
| `PostMeta.Flagged` | slop-stopper.php:103-109 | The listing query returns exactly the posts whose flag row holds "1". |
| `PostMeta.MetaStore.Update` | slop-stopper.php:178 | Writing a meta value changes that one row to the value and nothing else; for a revision the row is the parent's. |
| `PostMeta.MetaStore.Delete` | slop-stopper.php:183 | Deleting a meta key removes that one row and nothing else; for a revision the row is the parent's. |
| `Listing.FoundPhrases` | slop-stopper.php:125-131 | A row never lists more phrases than the list has. |
| `Listing.FoundPhrasesCount` | slop-stopper.php:127-131 | Each phrase appears in the row as often as in the list when the content contains it, and not at all otherwise. |
| `Listing.DistinctCountsAtMostOne` | slop-stopper.php:205-212 | A list with no repeated phrase holds each phrase at most once. |
| `Listing.BaseRowNoDuplicates` | slop-stopper.php:120-131 | Under the unfiltered list, a listing row never names the same phrase twice. |
| `Listing.FoundPhrasesMembers` | slop-stopper.php:127-131 | A phrase is in the row iff it is in the list and the content contains it. |
| `Listing.FoundPhrasesEmpty` | slop-stopper.php:127-131 | The row is empty iff no phrase of the list matches the content. |
| `Listing.FoundPhrasesAppend` | slop-stopper.php:127-131 | The row of a concatenated list is the row of the first part followed by the row of the second: list order is kept. |
| `Listing.RegistryExtension` | slop-stopper.php:120-131 | A phrase added to the end of the list appears at the end of the row exactly for the contents that contain it; the rest of the row is unchanged. |
| `Listing.FoundPhrasesPair` | slop-stopper.php:127-131 | For a two-phrase list where only the first matches, the row is just the first. |
| `Listing.CollectFoundPhrases` | slop-stopper.php:125-131 | The `foreach` loop builds exactly the order-preserving filter of the list by containment. |
| `Listing.CollectRows` | slop-stopper.php:122-139 | The post loop yields one row for each listed post, holding that post's found phrases. |
| `Listing.FlaggedRows` | slop-stopper.php:103-139 | A post has a row iff it exists and is flagged, whatever its content matches now. |
| `Listing.RowsAreFlaggedRows` | slop-stopper.php:103-139 | Rows built for exactly the flagged, existing posts, each from its own content, are the table. |
| `Listing.ManualFlagEmptyRow` | slop-stopper.php:103-131 | A flagged post whose content matches nothing is still listed, with an empty row. |
| `Moderation.FirstMatch` | slop-stopper.php:176-181 | No index iff no phrase matches; otherwise an in-range index whose phrase matches while every earlier phrase does not. |
| `Moderation.Decide` | slop-stopper.php:163-184 | Internal saves are skipped; otherwise administrators are skipped; otherwise the result is a hold iff some phrase matches, at the first matching phrase in list order. |
| `Moderation.AfterCheck` | slop-stopper.php:176-183 | Only the post's flag row can change; after a hold the post is flagged, after an allow its flag row is gone, after a skip the store is as before. |
| `Moderation.AfterMetabox` | slop-stopper.php:260-270 | Only the post's flag row can change; without a valid nonce nothing changes; with one the post is flagged iff the checkbox was sent, and the row is gone otherwise. |
| `Moderation.SaveEvent` | slop-stopper.php:64-70 | A save changes only the flag row of the post the meta writes reach (the parent for a revision or autosave), and it is aborted iff the check holds. |
| `Moderation.InternalSaveUntouched` | slop-stopper.php:164-166 | A revision, autosave or `DOING_AUTOSAVE` save never holds and leaves the store unchanged. |
| `Moderation.AdministratorKeepsFlag` | slop-stopper.php:168-171 | An administrator's save is skipped and the store, present flag or absent flag, is unchanged. |
| `Moderation.MatchHolds` | slop-stopper.php:176-180 | A non-administrator whose content contains some phrase is held, at that phrase or an earlier one, and the post is flagged. |
| `Moderation.NoMatchClears` | slop-stopper.php:176-183 | A non-administrator whose content contains no phrase is allowed and the flag row is removed even if it was there. |
| `Moderation.HeldSaveIgnoresMetabox` | slop-stopper.php:66-68 | A held save aborts at the triggering phrase with the store the check left: the post is flagged whatever the nonce and the checkbox say. |
| `Moderation.CompletedSaveFollowsCheckbox` | slop-stopper.php:260-270 | When the save is not held and the nonce is valid, the post the writes reach ends flagged iff the checkbox was sent, independent of content. |
| `Moderation.RevisionSaveWritesParent` | slop-stopper.php:164-166 | A revision or autosave save completes as an internal skip whatever its content; with a valid nonce the parent ends flagged iff the checkbox was sent, without one nothing changes, and no row but the parent's flag can change. |
| `Moderation.CompletedSaveWithoutNonce` | slop-stopper.php:261-263 | Without a valid nonce a completed save keeps what the check left: the store unchanged after a skip, the flag row removed after an allow. |
| `Moderation.FirstMatchHeadsRow` | slop-stopper.php:120-131 | The scan finds nothing iff the listing row is empty, and otherwise the row starts with the phrase the scan stopped at. |
| `Moderation.HeldPostListed` | slop-stopper.php:103-131 | A post held by a save is listed afterwards under the same list, and when the listing reads the same text the check scanned, its row starts with the triggering phrase. |
| `Plugin.SlopStopper.constructor` | slop-stopper.php:64-70 | The plugin works on the given store and phrase filter. |
| `Plugin.SlopStopper.CheckContent` | slop-stopper.php:163-184 | The handler returns the decision `Decide` gives and leaves the store as `AfterCheck` describes for the post its meta writes reach. |
| `Plugin.SlopStopper.SaveMetabox` | slop-stopper.php:260-270 | The handler leaves the store as `AfterMetabox` describes for the post its meta writes reach, the parent for a revision. |
| `Plugin.SlopStopper.OnSave` | slop-stopper.php:64-70 | Running the check and then, unless it held, the metabox handler gives the outcome and store of `SaveEvent`. |
| `Plugin.SlopStopper.FlaggedPostsTable` | slop-stopper.php:103-139 | The settings-page table, read from the live store, is `FlaggedRows` of that store and the current list. |
| `Scenarios.TextContainsDelve` | slop-stopper.php:177 | "We will Delve into this." matches "delve". |
| `Scenarios.TextLacksTapestry` | slop-stopper.php:177 | "We will Delve into this." does not match "tapestry". |
| `Scenarios.AuthorIsHeld` | slop-stopper.php:163-184 | An author saving that text against ["delve", "tapestry"] is held at "delve" and the post is flagged. |
| `Scenarios.AuthorRow` | slop-stopper.php:125-131 | That post's listing row is exactly ["delve"]. |
| `Scenarios.AdministratorIsSkipped` | slop-stopper.php:168-171 | The same text from an administrator is skipped and an absent flag stays absent. |
| `Scenarios.PlainLacks` | slop-stopper.php:177 | "A plain update." matches none of the base phrases, one at a time. |
| `Scenarios.PlainMatchesNoBasePhrase` | slop-stopper.php:205-212 | "A plain update." matches no base phrase. |
| `Scenarios.ManualFlagListedEmpty` | slop-stopper.php:103-131 | A hand-flagged post with that text is listed with an empty row under the base list. |
| `Scenarios.PreviewUnflagsParent` | slop-stopper.php:260-270 | A flagged published post whose text holds "delve" is listed; after an author's preview with the box unchecked, which saves an autosave of it, the autosave completes unscanned and the post is no longer listed. |
| `Scenarios.HeldSaveOnPlugin` | slop-stopper.php:64-70 | An author's save through the plugin object is aborted at "delve" with the box unchecked, the post ends flagged, and the table then lists it under exactly ["delve"]. |

## Left out

- HTML of the settings page, the metabox and the admin notice (`add_settings_page`, `render_metabox`, `add_metabox`, `display_admin_notice`, slop-stopper.php:78-151, 192-250): presentation only; only the phrase-matching part of the listing is modelled.
- Title, author, date and edit-link columns of the listing, and the `implode` that joins a row: presentation.
- `WP_Query` itself: the query is modelled as the posts whose flag row holds "1" and that exist; its post-type and post-status filtering and its date order are not modelled, so the table is a map from post to row.
- Update checker, WordPress.com handler, Composer autoload and text-domain loading (slop-stopper.php:25-60): foreign library code and I/O.
- Nonce creation and `wp_verify_nonce`: a nonce is missing or present with a validity given as input.
- The `wp_die` message, its back link and HTTP response: the abort is the `Hold` decision and the `Aborted` outcome.
- Localisation: `esc_attr__` may translate the base phrases; the model uses the strings as written, and matching is against whatever list is active.
- `apply_filters`: the chain of callbacks is reduced to its final result, an optional replacement list of strings; a callback returning something other than a list of strings is not modelled.
- Case folding outside ASCII, and the locale-dependent folding of PHP before 8.2: only 'A'..'Z' fold. Text is a sequence of characters rather than of bytes; for UTF-8 text ASCII folding and substring search give the same answers on both.
- Several meta rows under one key: the store holds one value per post and key.
- Listing text: the listing scans `get_the_content()` (slop-stopper.php:124), the check scans `$post->post_content` (slop-stopper.php:173). In the settings-page loop `get_the_content()` gives only the first page of a `<!--nextpage-->` post, cut at `<!--more-->` and followed by a "Continue reading" link, and the password form for a password-protected post. The model takes the listing's text as the separate `posts` input and does not derive it from the stored content; `Moderation.HeldPostListed` assumes the two texts are the same.
- Post status: not modelled; `check_content` never changes it, so the post keeps the status it was stored with before `save_post` fired, whatever the `wp_die` message says.
- `wp_is_post_revision` and `wp_is_post_autosave` look the post up by id; the model carries both answers on the post being saved (the parent for a revision, a flag for an autosave) and does not check that an autosave is also given a parent.
- `Plugin.SlopStopper.CheckContent`: the number of store writes is not counted; the method's body returns straight after its one write, and its contract states the resulting store.
- The `$update` argument of `check_content` is unused by the source and is not modelled.
