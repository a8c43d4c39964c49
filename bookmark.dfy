/**
 * The bookmark toggle of hooks/useToggleBookmark.ts over the
 * `saved_characters` table of lib/schema.ts and the query cache.
 *
 * The table is a map from the primary key `characterSlug` to the row; the
 * cache holds the resolved detail queries by key and records the key families
 * it was asked to invalidate. The toggle runs as one atomic step.
 */
module Bookmark {
  import opened Wrappers
  import opened Query

  /** A row of `saved_characters`; `savedAt` is the database clock at insertion. */
  datatype SavedCharacter = SavedCharacter(characterSlug: string, characterName: string, savedAt: int)

  type Rows = map<string, SavedCharacter>

  /** The primary key: every row is stored under its own `characterSlug`. */
  predicate RowsValid(rows: Rows)
  {
    forall k :: k in rows ==> rows[k].characterSlug == k
  }

  /** The rows `eq(savedCharacters.characterSlug, slug)` selects. */
  function Matching(rows: Rows, slug: string): set<string>
  {
    set k | k in rows && rows[k].characterSlug == slug
  }

  /** The rows `delete(...).where(eq(characterSlug, slug))` leaves. */
  function Unmatched(rows: Rows, slug: string): Rows
  {
    map k | k in rows && rows[k].characterSlug != slug :: rows[k]
  }

  /** Under the primary key, the count is 1 or 0 and the delete removes exactly the row of `slug`. */
  lemma MatchingIsKey(rows: Rows, slug: string)
    requires RowsValid(rows)
    ensures Matching(rows, slug) == if slug in rows then {slug} else {}
    ensures |Matching(rows, slug)| == if slug in rows then 1 else 0
    ensures Unmatched(rows, slug) == rows - {slug}
  {
    assert Unmatched(rows, slug).Keys == (rows - {slug}).Keys;
  }

  // ---------------------------------------------------------------------------
  // The store and the cache
  // ---------------------------------------------------------------------------

  /** The `saved_characters` table. */
  class SavedTable {
    var rows: Rows

    predicate Valid()
      reads this
    {
      RowsValid(rows)
    }

    constructor ()
      ensures rows == map[] && Valid()
    {
      rows := map[];
    }

    /** `db.$count(savedCharacters, eq(savedCharacters.characterSlug, slug))`. */
    method Count(slug: string) returns (n: nat)
      requires Valid()
      ensures n == |Matching(rows, slug)|
      ensures n > 0 <==> slug in rows
    {
      MatchingIsKey(rows, slug);
      n := if slug in rows then 1 else 0;
    }

    /** `db.delete(savedCharacters).where(eq(savedCharacters.characterSlug, slug))`. */
    method Delete(slug: string)
      requires Valid()
      modifies this
      ensures rows == Unmatched(old(rows), slug)
      ensures rows == old(rows) - {slug} && Valid()
    {
      MatchingIsKey(rows, slug);
      rows := rows - {slug};
    }

    /**
     * `db.insert(savedCharacters).values({ characterSlug, characterName })`:
     * `savedAt` takes the clock `now`; a row with the same primary key makes
     * the insert fail and leaves the table as it was.
     */
    method Insert(slug: string, name: string, now: int) returns (inserted: bool)
      requires Valid()
      modifies this
      ensures inserted <==> slug !in old(rows)
      ensures rows == if inserted then old(rows)[slug := SavedCharacter(slug, name, now)] else old(rows)
      ensures Valid()
    {
      inserted := slug !in rows;
      if inserted {
        rows := rows[slug := SavedCharacter(slug, name, now)];
      }
    }
  }

  type Cache = map<QueryKey, CharacterAttributes>

  /**
   * What `ensureQueryData(characterOptions(slug))` yields: the resident entry
   * if there is one, otherwise the outcome of running the query (with its
   * retries) against `responses`.
   */
  function Lookup(cache: Cache, slug: string, responses: nat -> Result<Single<CharacterAttributes>, AxiosError>): Result<CharacterAttributes, AxiosError>
  {
    if CharacterKey(slug) in cache then Success(cache[CharacterKey(slug)])
    else FetchCharacter(responses, 0).result
  }

  /** The cache after that lookup: a fetched character is kept under its key. */
  function CacheAfterLookup(cache: Cache, slug: string, responses: nat -> Result<Single<CharacterAttributes>, AxiosError>): Cache
  {
    var r := Lookup(cache, slug, responses);
    if CharacterKey(slug) !in cache && r.Success? then cache[CharacterKey(slug) := r.value] else cache
  }

  /** The `QueryClient`: resolved detail entries and the invalidations it was asked for. */
  class QueryClient {
    var cache: Cache
    var invalidations: seq<QueryKey>

    constructor ()
      ensures cache == map[] && invalidations == []
    {
      cache := map[];
      invalidations := [];
    }

    /** `ensureQueryData(characterOptions(slug))`. */
    method EnsureCharacter(slug: string, responses: nat -> Result<Single<CharacterAttributes>, AxiosError>)
      returns (r: Result<CharacterAttributes, AxiosError>)
      modifies this
      ensures r == Lookup(old(cache), slug, responses)
      ensures cache == CacheAfterLookup(old(cache), slug, responses)
      ensures invalidations == old(invalidations)
    {
      var key := CharacterKey(slug);
      if key in cache {
        r := Success(cache[key]);
      } else {
        r := FetchCharacter(responses, 0).result;
        if r.Success? {
          cache := cache[key := r.value];
        }
      }
    }

    /** `invalidateQueries({ queryKey })`: entries of the family are refetched, not dropped. */
    method InvalidateQueries(key: QueryKey)
      modifies this
      ensures invalidations == old(invalidations) + [key]
      ensures cache == old(cache)
    {
      invalidations := invalidations + [key];
    }
  }

  // ---------------------------------------------------------------------------
  // The toggle
  // ---------------------------------------------------------------------------

  /** What `mutationFn` did. */
  datatype Change = Deleted(slug: string) | Inserted(row: SavedCharacter)

  /** The table after toggling `slug`, given what the name lookup would yield. */
  function ToggledRows(rows: Rows, slug: string, character: Result<CharacterAttributes, AxiosError>, now: int): Rows
  {
    if slug in rows then rows - {slug}
    else if character.Success? then rows[slug := SavedCharacter(slug, character.value.name, now)]
    else rows
  }

  /**
   * `mutationFn(slug)`: count the rows of `slug`; if there are any, delete
   * them; otherwise look the character up and insert a row with its name.
   * A failed lookup rejects the mutation with the lookup's error.
   */
  method MutationFn(db: SavedTable, client: QueryClient, slug: string,
                    responses: nat -> Result<Single<CharacterAttributes>, AxiosError>, now: int)
    returns (r: Result<Change, AxiosError>)
    requires db.Valid()
    modifies db, client
    ensures db.Valid()
    ensures old(slug in db.rows) ==> r == Success(Deleted(slug)) && client.cache == old(client.cache)
    ensures old(slug !in db.rows) ==> client.cache == CacheAfterLookup(old(client.cache), slug, responses)
    ensures db.rows == ToggledRows(old(db.rows), slug, Lookup(old(client.cache), slug, responses), now)
    ensures client.invalidations == old(client.invalidations)
    ensures r.Failure? ==> old(slug !in db.rows) && Lookup(old(client.cache), slug, responses) == Failure(r.error)
    ensures r.Success? ==> (slug in db.rows <==> old(slug !in db.rows))
  {
    var count := db.Count(slug);
    if count > 0 {
      db.Delete(slug);
      return Success(Deleted(slug));
    }
    var character := client.EnsureCharacter(slug, responses);
    if character.Failure? {
      return Failure(character.error);
    }
    var inserted := db.Insert(slug, character.value.name, now);
    assert inserted;
    r := Success(Inserted(SavedCharacter(slug, character.value.name, now)));
  }

  /** `useToggleBookmark().mutate(slug)`: the mutation, then `onSettled` whatever its outcome. */
  method ToggleBookmark(db: SavedTable, client: QueryClient, slug: string,
                        responses: nat -> Result<Single<CharacterAttributes>, AxiosError>, now: int)
    returns (r: Result<Change, AxiosError>)
    requires db.Valid()
    modifies db, client
    ensures db.Valid()
    ensures db.rows == ToggledRows(old(db.rows), slug, Lookup(old(client.cache), slug, responses), now)
    ensures old(slug in db.rows) ==> client.cache == old(client.cache)
    ensures old(slug !in db.rows) ==> client.cache == CacheAfterLookup(old(client.cache), slug, responses)
    ensures client.invalidations == old(client.invalidations) + [SavedFamily]
    ensures r.Failure? <==> db.rows == old(db.rows) && old(slug !in db.rows)
  {
    r := MutationFn(db, client, slug, responses, now);
    client.InvalidateQueries(SavedFamily);
  }

  // ---------------------------------------------------------------------------
  // What a toggle does to the table
  // ---------------------------------------------------------------------------

  /** A saved character is unsaved: exactly its row goes, and nothing is inserted. */
  lemma ToggleDeletesSavedRow(rows: Rows, slug: string, character: Result<CharacterAttributes, AxiosError>, now: int)
    requires slug in rows
    ensures slug !in ToggledRows(rows, slug, character, now)
    ensures ToggledRows(rows, slug, character, now).Keys == rows.Keys - {slug}
    ensures |ToggledRows(rows, slug, character, now)| == |rows| - 1
  {
  }

  /** A character that is not saved gets exactly one row, holding its slug and the looked-up name. */
  lemma ToggleInsertsOneRow(rows: Rows, slug: string, character: Result<CharacterAttributes, AxiosError>, now: int)
    requires slug !in rows && character.Success?
    ensures slug in ToggledRows(rows, slug, character, now)
    ensures ToggledRows(rows, slug, character, now)[slug].characterSlug == slug
    ensures ToggledRows(rows, slug, character, now)[slug].characterName == character.value.name
    ensures ToggledRows(rows, slug, character, now).Keys == rows.Keys + {slug}
    ensures |ToggledRows(rows, slug, character, now)| == |rows| + 1
  {
  }

  /** A failed lookup inserts nothing and leaves the table unchanged. */
  lemma ToggleFailedLookupKeepsRows(rows: Rows, slug: string, character: Result<CharacterAttributes, AxiosError>, now: int)
    requires slug !in rows && character.Failure?
    ensures ToggledRows(rows, slug, character, now) == rows
  {
  }

  /** The lookup matters only when the character is not saved. */
  lemma ToggleOfSavedIgnoresLookup(rows: Rows, slug: string, c1: Result<CharacterAttributes, AxiosError>, c2: Result<CharacterAttributes, AxiosError>, now: int)
    requires slug in rows
    ensures ToggledRows(rows, slug, c1, now) == ToggledRows(rows, slug, c2, now)
  {
  }

  /** Rows of other slugs are never touched. */
  lemma ToggleSparesOtherRows(rows: Rows, slug: string, character: Result<CharacterAttributes, AxiosError>, now: int)
    ensures forall k :: k != slug ==> (k in ToggledRows(rows, slug, character, now) <==> k in rows)
    ensures forall k :: k != slug && k in rows ==> ToggledRows(rows, slug, character, now)[k] == rows[k]
  {
  }

  /** The table keeps at most one row per slug, each under its own key. */
  lemma ToggleKeepsPrimaryKey(rows: Rows, slug: string, character: Result<CharacterAttributes, AxiosError>, now: int)
    requires RowsValid(rows)
    ensures RowsValid(ToggledRows(rows, slug, character, now))
  {
  }

  /**
   * Two toggles restore whether the character is saved, as long as the
   * lookup that the insertion needs succeeds; from unsaved they restore the
   * table exactly, from saved the row comes back with a new name and time.
   */
  lemma ToggleTwiceRestoresPresence(rows: Rows, slug: string,
                                    c1: Result<CharacterAttributes, AxiosError>, c2: Result<CharacterAttributes, AxiosError>,
                                    now1: int, now2: int)
    requires slug !in rows ==> c1.Success?
    requires slug in rows ==> c2.Success?
    ensures slug in ToggledRows(ToggledRows(rows, slug, c1, now1), slug, c2, now2) <==> slug in rows
    ensures slug !in rows ==> ToggledRows(ToggledRows(rows, slug, c1, now1), slug, c2, now2) == rows
    ensures slug in rows ==>
      ToggledRows(ToggledRows(rows, slug, c1, now1), slug, c2, now2) == rows[slug := SavedCharacter(slug, c2.value.name, now2)]
  {
    if slug !in rows {
      var once := ToggledRows(rows, slug, c1, now1);
      assert once - {slug} == rows;
    } else {
      var once := ToggledRows(rows, slug, c1, now1);
      assert once[slug := SavedCharacter(slug, c2.value.name, now2)] == rows[slug := SavedCharacter(slug, c2.value.name, now2)];
    }
  }

  /** A run of toggles of one slug, each with the outcome of its lookup. */
  function ToggledRowsN(rows: Rows, slug: string, lookups: seq<Result<CharacterAttributes, AxiosError>>, now: int): Rows
    decreases |lookups|
  {
    if lookups == [] then rows
    else ToggledRowsN(ToggledRows(rows, slug, lookups[0], now), slug, lookups[1..], now)
  }

  /** With lookups that succeed, `n` toggles save the character exactly when `n` is odd and it was unsaved, or even and it was saved. */
  lemma {:induction false} ToggleParity(rows: Rows, slug: string, lookups: seq<Result<CharacterAttributes, AxiosError>>, now: int)
    requires forall i :: 0 <= i < |lookups| ==> lookups[i].Success?
    ensures slug in ToggledRowsN(rows, slug, lookups, now) <==> (slug in rows <==> |lookups| % 2 == 0)
    ensures forall k :: k != slug ==> (k in ToggledRowsN(rows, slug, lookups, now) <==> k in rows)
    decreases |lookups|
  {
    if lookups != [] {
      var next := ToggledRows(rows, slug, lookups[0], now);
      ToggleSparesOtherRows(rows, slug, lookups[0], now);
      ToggleParity(next, slug, lookups[1..], now);
    }
  }

  // ---------------------------------------------------------------------------
  // The lookup and the cache
  // ---------------------------------------------------------------------------

  /** A resident detail entry answers the lookup without a request. */
  lemma LookupUsesResidentEntry(cache: Cache, slug: string, responses: nat -> Result<Single<CharacterAttributes>, AxiosError>)
    requires CharacterKey(slug) in cache
    ensures Lookup(cache, slug, responses) == Success(cache[CharacterKey(slug)])
    ensures CacheAfterLookup(cache, slug, responses) == cache
  {
  }

  /** Once a lookup has succeeded, later lookups of the slug are answered from the cache, whatever the network does. */
  lemma LookupIsRemembered(cache: Cache, slug: string,
                           r1: nat -> Result<Single<CharacterAttributes>, AxiosError>,
                           r2: nat -> Result<Single<CharacterAttributes>, AxiosError>)
    requires Lookup(cache, slug, r1).Success?
    ensures Lookup(CacheAfterLookup(cache, slug, r1), slug, r2) == Lookup(cache, slug, r1)
  {
  }

  /** The looked-up name is the `name` attribute of the last response, after at most four requests. */
  lemma FetchedNameIsAttribute(cache: Cache, slug: string, responses: nat -> Result<Single<CharacterAttributes>, AxiosError>)
    requires CharacterKey(slug) !in cache
    requires Lookup(cache, slug, responses).Success?
    ensures exists k ::
      && 0 <= k < 4
      && responses(k).Success?
      && Lookup(cache, slug, responses).value == responses(k).value.data.attributes
  {
    var q := FetchCharacter(responses, 0);
    assert 0 <= q.requests - 1 < 4;
  }
}
