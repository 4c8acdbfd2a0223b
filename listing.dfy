/**
 * The flagged-posts listing of the settings page: for every post whose flag
 * is set, the phrases of the current list that its current content contains,
 * in list order. The listing only reads the store.
 */
module Listing {
  import opened Wrappers
  import opened CaseFold
  import opened PostMeta
  import opened PhraseRegistry

  /** The phrases of `phrases` that `content` contains, in list order. */
  function FoundPhrases(content: string, phrases: seq<string>): (r: seq<string>)
    ensures |r| <= |phrases|
  {
    if phrases == [] then []
    else
      (if ContainsCI(content, phrases[0]) then [phrases[0]] else [])
        + FoundPhrases(content, phrases[1..])
  }

  /**
   * The row is exactly the filter of the list by containment: each phrase
   * occurs in it as often as in the list if the content contains it, and not
   * at all otherwise.
   */
  lemma {:induction false} FoundPhrasesCount(content: string, phrases: seq<string>, p: string)
    ensures multiset(FoundPhrases(content, phrases))[p] ==
      if ContainsCI(content, p) then multiset(phrases)[p] else 0
  {
    if phrases != [] {
      assert phrases == [phrases[0]] + phrases[1..];
      FoundPhrasesCount(content, phrases[1..], p);
    }
  }

  /** A list without repeated phrases holds each phrase at most once. */
  lemma {:induction false} DistinctCountsAtMostOne(phrases: seq<string>, p: string)
    requires forall i, j :: 0 <= i < j < |phrases| ==> phrases[i] != phrases[j]
    ensures multiset(phrases)[p] <= 1
  {
    if phrases != [] {
      assert phrases == [phrases[0]] + phrases[1..];
      DistinctCountsAtMostOne(phrases[1..], p);
      if p == phrases[0] {
        assert p !in phrases[1..];
      }
    }
  }

  /** Under the unfiltered list a row never names a phrase twice. */
  lemma BaseRowNoDuplicates(content: string, p: string)
    ensures multiset(FoundPhrases(content, GetPhrases(None)))[p] <= 1
  {
    BasePhrasesDistinct();
    DistinctCountsAtMostOne(BASE_PHRASES, p);
    FoundPhrasesCount(content, BASE_PHRASES, p);
  }

  /** A phrase is in the row iff it is in the list and the content contains it. */
  lemma FoundPhrasesMembers(content: string, phrases: seq<string>, p: string)
    ensures p in FoundPhrases(content, phrases) <==> p in phrases && ContainsCI(content, p)
  {
    FoundPhrasesCount(content, phrases, p);
    assert p in FoundPhrases(content, phrases) <==> multiset(FoundPhrases(content, phrases))[p] > 0;
    assert p in phrases <==> multiset(phrases)[p] > 0;
  }

  /** The row is empty iff no phrase of the list is contained in the content. */
  lemma {:induction false} FoundPhrasesEmpty(content: string, phrases: seq<string>)
    ensures FoundPhrases(content, phrases) == [] <==>
      forall j :: 0 <= j < |phrases| ==> !ContainsCI(content, phrases[j])
  {
    if phrases != [] {
      FoundPhrasesEmpty(content, phrases[1..]);
      assert forall j :: 1 <= j < |phrases| ==> phrases[j] == phrases[1..][j - 1];
    }
  }

  /** Filtering a concatenation filters each part and keeps their order. */
  lemma {:induction false} FoundPhrasesAppend(content: string, a: seq<string>, b: seq<string>)
    ensures FoundPhrases(content, a + b) == FoundPhrases(content, a) + FoundPhrases(content, b)
  {
    if a != [] {
      assert (a + b)[1..] == a[1..] + b;
      FoundPhrasesAppend(content, a[1..], b);
    } else {
      assert a + b == b;
    }
  }

  /**
   * A phrase added at the end of the list shows up, at the end, for exactly
   * the posts that contain it; the rest of the row does not change.
   */
  lemma RegistryExtension(content: string, phrases: seq<string>, extra: string)
    ensures ContainsCI(content, extra) ==>
      FoundPhrases(content, phrases + [extra]) == FoundPhrases(content, phrases) + [extra]
    ensures !ContainsCI(content, extra) ==>
      FoundPhrases(content, phrases + [extra]) == FoundPhrases(content, phrases)
  {
    FoundPhrasesAppend(content, phrases, [extra]);
    assert FoundPhrases(content, [extra]) ==
      (if ContainsCI(content, extra) then [extra] else []) + FoundPhrases(content, []);
  }

  /** A two-phrase list of which the content contains only the first. */
  lemma FoundPhrasesPair(content: string, first: string, second: string)
    requires ContainsCI(content, first) && !ContainsCI(content, second)
    ensures FoundPhrases(content, [first, second]) == [first]
  {
    assert [first, second][1..] == [second];
    assert [second][1..] == [];
  }

  /** The `foreach` over the phrases that builds `$found_phrases`. */
  method CollectFoundPhrases(content: string, phrases: seq<string>) returns (found: seq<string>)
    ensures found == FoundPhrases(content, phrases)
  {
    found := [];
    var i := 0;
    while i < |phrases|
      invariant 0 <= i <= |phrases|
      invariant found + FoundPhrases(content, phrases[i..]) == FoundPhrases(content, phrases)
    {
      assert phrases[i..][1..] == phrases[i + 1..];
      if ContainsCI(content, phrases[i]) {
        found := found + [phrases[i]];
      }
      i := i + 1;
    }
    assert phrases[i..] == [];
  }

  /** The `while have_posts()` loop: one row per post the query returned. */
  method CollectRows(listed: set<PostId>, posts: map<PostId, string>, phrases: seq<string>)
    returns (rows: map<PostId, seq<string>>)
    requires listed <= posts.Keys
    ensures rows.Keys == listed
    ensures forall id :: id in rows ==> rows[id] == FoundPhrases(posts[id], phrases)
  {
    var pending := listed;
    rows := map[];
    while pending != {}
      invariant pending <= listed
      invariant rows.Keys == listed - pending
      invariant forall id :: id in rows ==> rows[id] == FoundPhrases(posts[id], phrases)
      decreases pending
    {
      var id :| id in pending;
      var found := CollectFoundPhrases(posts[id], phrases);
      rows := rows[id := found];
      pending := pending - {id};
    }
  }

  /**
   * The table: one row per flagged post that exists, holding the phrases its
   * current content contains. A row is there because the flag is, whatever
   * the content now matches.
   */
  function FlaggedRows(entries: Entries, posts: map<PostId, string>, phrases: seq<string>)
    : (rows: map<PostId, seq<string>>)
    ensures forall id :: id in rows <==> id in posts && IsFlagged(entries, id)
  {
    map id | id in Flagged(entries) && id in posts :: FoundPhrases(posts[id], phrases)
  }

  /** Rows built for exactly the flagged posts are the table. */
  lemma RowsAreFlaggedRows(rows: map<PostId, seq<string>>, entries: Entries,
                           posts: map<PostId, string>, phrases: seq<string>)
    requires rows.Keys == Flagged(entries) * posts.Keys
    requires forall id :: id in rows ==> id in posts && rows[id] == FoundPhrases(posts[id], phrases)
    ensures rows == FlaggedRows(entries, posts, phrases)
  {
    var expected := FlaggedRows(entries, posts, phrases);
    assert rows.Keys == expected.Keys;
  }

  /** A post flagged by hand whose content matches nothing is listed with an empty row. */
  lemma ManualFlagEmptyRow(entries: Entries, posts: map<PostId, string>, phrases: seq<string>, id: PostId)
    requires id in posts && IsFlagged(entries, id)
    requires forall j :: 0 <= j < |phrases| ==> !ContainsCI(posts[id], phrases[j])
    ensures id in FlaggedRows(entries, posts, phrases)
    ensures FlaggedRows(entries, posts, phrases)[id] == []
  {
    FoundPhrasesEmpty(posts[id], phrases);
  }
}
