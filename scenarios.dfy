/**
 * Worked examples: a held author, a skipped administrator, a hand-flagged
 * post with an empty row, and a preview that clears a published post's flag.
 */
module Scenarios {
  import opened Wrappers
  import opened CaseFold
  import opened PostMeta
  import opened PhraseRegistry
  import opened Listing
  import opened Moderation
  import opened Plugin

  const TEXT: string := "We will Delve into this."
  const SHORT_LIST: seq<string> := ["delve", "tapestry"]

  // The lemmas below take the example strings as parameters equal to the
  // constants, so that the verifier reasons about them through the general
  // lemmas of CaseFold instead of evaluating every call on the literals.

  function Author(): (req: Request) { Request(["author"], false, Missing, false) }
  function Admin(): (req: Request) { Request(["administrator"], false, Missing, false) }

  lemma TextContainsDelve(text: string, phrase: string)
    requires text == TEXT && phrase == "delve"
    ensures ContainsCI(text, phrase)
  {
    assert TEXT == "We will " + "Delve" + " into this.";
    ContainsCIEmbedded("We will ", "Delve", " into this.", "delve");
  }

  lemma TextLacksTapestry(text: string, phrase: string)
    requires text == TEXT && phrase == "tapestry"
    ensures !ContainsCI(text, phrase)
  {
    NotContainsCIMissingChar(text, phrase, 2);
  }

  /**
   * A non-administrator saving text that contains "Delve" against the list
   * ["delve", "tapestry"] is held at "delve" and the post is flagged.
   */
  lemma AuthorIsHeld(entries: Entries, id: PostId, text: string, phrases: seq<string>)
    requires text == TEXT && phrases == SHORT_LIST
    ensures Decide(Post(text, None, false), Author(), phrases) == Hold(0)
    ensures IsFlagged(AfterCheck(entries, id, Decide(Post(text, None, false), Author(), phrases)), id)
  {
    TextContainsDelve(text, phrases[0]);
  }

  /** The listing row for that post is exactly ["delve"], the first phrase of the list. */
  lemma AuthorRow(text: string, phrases: seq<string>)
    requires text == TEXT && phrases == SHORT_LIST
    ensures FoundPhrases(text, phrases) == [phrases[0]]
  {
    TextContainsDelve(text, phrases[0]);
    TextLacksTapestry(text, phrases[1]);
    FoundPhrasesPair(text, phrases[0], phrases[1]);
  }

  /** The same text from an administrator is skipped: an absent flag stays absent. */
  lemma AdministratorIsSkipped(id: PostId)
    ensures Decide(Post(TEXT, None, false), Admin(), SHORT_LIST) == Skipped(Administrator)
    ensures !IsFlagged(AfterCheck(map[], id, Skipped(Administrator)), id)
  {
  }

  const PLAIN: string := "A plain update."

  /** "A plain update." has no g, r, v, s or m, in either case. */
  lemma PlainLacks(text: string, j: nat)
    requires text == PLAIN && j < |BASE_PHRASES|
    ensures !ContainsCI(text, BASE_PHRASES[j])
  {
    var k := if j == 0 then 2 else if j == 1 then 1 else if j == 2 then 4
             else if j == 3 then 3 else if j == 4 then 4 else 1;
    NotContainsCIMissingChar(text, BASE_PHRASES[j], k);
  }

  lemma PlainMatchesNoBasePhrase(text: string)
    requires text == PLAIN
    ensures forall j :: 0 <= j < |BASE_PHRASES| ==> !ContainsCI(text, BASE_PHRASES[j])
  {
    forall j | 0 <= j < |BASE_PHRASES|
      ensures !ContainsCI(text, BASE_PHRASES[j])
    {
      PlainLacks(text, j);
    }
  }

  /**
   * A post flagged by hand whose text contains no base phrase is still
   * listed, with an empty row.
   */
  lemma ManualFlagListedEmpty(entries: Entries, posts: map<PostId, string>, id: PostId)
    requires IsFlagged(entries, id) && id in posts && posts[id] == PLAIN
    ensures id in FlaggedRows(entries, posts, GetPhrases(None))
    ensures FlaggedRows(entries, posts, GetPhrases(None))[id] == []
  {
    PlainMatchesNoBasePhrase(posts[id]);
    ManualFlagEmptyRow(entries, posts, GetPhrases(None), id);
  }

  /**
   * An author previewing a flagged published post (id 7) saves its autosave
   * (id 8) with the box unchecked: the autosave is not scanned, the parent's
   * flag is removed, and the parent drops out of the listing although its
   * text still contains "delve".
   */
  lemma PreviewUnflagsParent(entries: Entries, posts: map<PostId, string>, text: string, phrases: seq<string>)
    requires entries == map[FlagOf(7) := FLAG_VALUE] && posts == map[7 := text]
    requires text == TEXT && phrases == SHORT_LIST
    ensures 7 in FlaggedRows(entries, posts, phrases) && FoundPhrases(text, phrases) == ["delve"]
    ensures SaveEvent(entries, 8, Post(text, Some(7), true), Request(["author"], false, Submitted(true), false), phrases)
      .outcome == Completed(Skipped(InternalSave))
    ensures 7 !in FlaggedRows(SaveEvent(entries, 8, Post(text, Some(7), true),
                                        Request(["author"], false, Submitted(true), false), phrases).entries,
                              posts, phrases)
  {
    AuthorRow(text, phrases);
    var after := SaveEvent(entries, 8, Post(text, Some(7), true), Request(["author"], false, Submitted(true), false), phrases);
    assert FlagOf(7) !in after.entries;
  }

  /**
   * A client of the plugin object: an author's held save flags the post even
   * with the box unchecked, and the table then lists it under ["delve"].
   */
  method HeldSaveOnPlugin() returns (outcome: SaveOutcome, flagged: bool, rows: map<PostId, seq<string>>)
    ensures outcome == Aborted(0)
    ensures flagged
    ensures 7 in rows && rows[7] == ["delve"]
  {
    var store := new MetaStore(map[]);
    var plugin := new SlopStopper(store, Some(SHORT_LIST));
    var req := Request(["author"], false, Submitted(true), false);
    AuthorIsHeld(map[], 7, TEXT, SHORT_LIST);
    AuthorRow(TEXT, SHORT_LIST);
    outcome := plugin.OnSave(7, Post(TEXT, None, false), req);
    flagged := IsFlagged(store.entries, 7);
    rows := plugin.FlaggedPostsTable(map[7 := TEXT]);
  }
}
