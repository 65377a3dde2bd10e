/**
 * Looks up synonyms of a word through an online thesaurus and caches the
 * answer per normalized word, caching an empty answer for a failed
 * request as well. The request is outside the model: its outcome is a
 * parameter of the lookup.
 */
module SynonymResolver {
  import opened Text

  /**
   * What the request for a word yields: a response that is not ok (with
   * its status), a request that throws, or the list of words it returns.
   */
  datatype FetchResponse = NotOk(status: int) | Failed | Ok(words: seq<string>)

  /** Each of `words` normalized, without those equal to `normalized`, in order. */
  function CleanWords(words: seq<string>, normalized: string): (r: seq<string>)
    ensures |r| <= |words|
    ensures forall s :: s in r ==> s != normalized && IsLower(s) && IsTrimmed(s)
  {
    if words == [] then []
    else
      NormalizeIsNormal(words[0]);
      var rest := CleanWords(words[1..], normalized);
      if Normalize(words[0]) != normalized then [Normalize(words[0])] + rest else rest
  }

  /** A word is a cleaned synonym exactly when it normalizes one of `words` and is not the word itself. */
  lemma {:induction false} CleanWordsMembers(words: seq<string>, normalized: string)
    ensures forall s :: s in CleanWords(words, normalized) <==> exists w :: w in words && Normalize(w) == s && s != normalized
  {
    if words != [] {
      CleanWordsMembers(words[1..], normalized);
      var head := Normalize(words[0]);
      var rest := CleanWords(words[1..], normalized);
      assert CleanWords(words, normalized) == (if head != normalized then [head] else []) + rest;
      forall s ensures s in CleanWords(words, normalized) <==> exists w :: w in words && Normalize(w) == s && s != normalized {
        if s in rest {
          var w :| w in words[1..] && Normalize(w) == s && s != normalized;
          assert w in words;
        }
        if exists w :: w in words && Normalize(w) == s && s != normalized {
          var w :| w in words && Normalize(w) == s && s != normalized;
          if w != words[0] {
            assert w in words[1..];
          }
        }
      }
    }
  }

  /** Cleaning words that are already clean and distinct from the word keeps them all. */
  lemma {:induction false} CleanWordsOfClean(words: seq<string>, normalized: string)
    requires forall s :: s in words ==> s != normalized && IsLower(s) && IsTrimmed(s)
    ensures CleanWords(words, normalized) == words
  {
    if words != [] {
      assert words[0] in words;
      ToLowerOfLower(words[0]);
      TrimOfTrimmed(words[0]);
      assert Normalize(words[0]) == words[0];
      assert forall s :: s in words[1..] ==> s in words;
      CleanWordsOfClean(words[1..], normalized);
    }
  }

  /**
   * A cache the resolver can reach: its keys are non-empty normalized
   * words, and every cached synonym is normalized and differs from its key.
   */
  predicate CacheValid(cache: map<string, seq<string>>) {
    forall k :: k in cache ==> ValidEntry(k, cache[k])
  }

  /** A cache entry the resolver can produce. */
  predicate ValidEntry(key: string, synonyms: seq<string>) {
    key != "" && IsLower(key) && IsTrimmed(key) &&
    forall s :: s in synonyms ==> s != key && IsLower(s) && IsTrimmed(s)
  }

  /** The result of one lookup: the synonyms returned and the cache after it. */
  datatype Lookup = Lookup(synonyms: seq<string>, cache: map<string, seq<string>>, requested: bool)

  /**
   * One `getSynonyms` call on `cache`, answered from the cache when it
   * holds the normalized word and from `response` otherwise.
   */
  function Resolve(cache: map<string, seq<string>>, word: string, response: FetchResponse): (r: Lookup)
    ensures r.requested <==> Normalize(word) != "" && Normalize(word) !in cache
    ensures Normalize(word) == "" ==> r == Lookup([], cache, false)
    ensures Normalize(word) != "" && Normalize(word) in cache ==> r == Lookup(cache[Normalize(word)], cache, false)
    ensures r.requested ==> r.cache == cache[Normalize(word) := r.synonyms]
    ensures r.requested && !response.Ok? ==> r.synonyms == []
    ensures r.requested && response.Ok? ==> r.synonyms == CleanWords(response.words, Normalize(word))
  {
    var normalized := Normalize(word);
    if normalized == "" then Lookup([], cache, false)
    else if normalized in cache then Lookup(cache[normalized], cache, false)
    else match response
      case NotOk(_) => Lookup([], cache[normalized := []], true)
      case Failed => Lookup([], cache[normalized := []], true)
      case Ok(words) =>
        var synonyms := CleanWords(words, normalized);
        Lookup(synonyms, cache[normalized := synonyms], true)
  }

  /** A lookup keeps the cache valid and returns normalized synonyms other than the word. */
  lemma ResolveKeepsCacheValid(cache: map<string, seq<string>>, word: string, response: FetchResponse)
    requires CacheValid(cache)
    ensures CacheValid(Resolve(cache, word, response).cache)
    ensures forall s :: s in Resolve(cache, word, response).synonyms ==>
      s != Normalize(word) && IsLower(s) && IsTrimmed(s)
  {
    var n := Normalize(word);
    var r := Resolve(cache, word, response);
    NormalizeIsNormal(word);
    if n != "" && n !in cache {
      assert ValidEntry(n, r.synonyms);
      assert forall k :: k in r.cache ==> k == n || (k in cache && r.cache[k] == cache[k]);
    }
  }

  /**
   * A lookup adds at most the normalized word to the cache and changes no
   * cached answer.
   */
  lemma ResolveOnlyAdds(cache: map<string, seq<string>>, word: string, response: FetchResponse)
    ensures var c := Resolve(cache, word, response).cache;
      cache.Keys <= c.Keys && c.Keys <= cache.Keys + {Normalize(word)} &&
      (forall k :: k in cache ==> c[k] == cache[k]) &&
      |c.Keys| <= |cache.Keys| + 1
  {
    var c := Resolve(cache, word, response).cache;
    if Normalize(word) !in cache && Normalize(word) != "" {
      assert c.Keys == cache.Keys + {Normalize(word)};
    } else {
      assert c.Keys == cache.Keys;
    }
  }

  /**
   * Once a word has been looked up, every later lookup of any spelling of
   * it is answered from the cache with the same synonyms, whatever the
   * network would say; this holds for a failed request too.
   */
  lemma SecondLookupHitsCache(cache: map<string, seq<string>>, word: string, response: FetchResponse, again: string, later: FetchResponse)
    requires Normalize(word) != ""
    requires Normalize(again) == Normalize(word)
    ensures var first := Resolve(cache, word, response);
      Resolve(first.cache, again, later) == Lookup(first.synonyms, first.cache, false)
  {
  }

  /** A failed or refused request answers no synonyms and caches that answer. */
  lemma FailureIsCached(cache: map<string, seq<string>>, word: string, response: FetchResponse)
    requires Normalize(word) != "" && Normalize(word) !in cache
    requires !response.Ok?
    ensures Resolve(cache, word, response).synonyms == []
    ensures Resolve(cache, word, response).cache == cache[Normalize(word) := []]
  {
  }

  class Resolver {
    /** Synonyms per normalized word. */
    var synonymCache: map<string, seq<string>>

    ghost predicate Valid()
      reads this
    {
      CacheValid(synonymCache)
    }

    constructor ()
      ensures Valid() && synonymCache == map[]
    {
      synonymCache := map[];
    }

    /**
     * The synonyms of `word`. `response` is what the request would return;
     * it is consulted only when the normalized word is not yet cached.
     */
    method GetSynonyms(word: string, response: FetchResponse) returns (synonyms: seq<string>)
      requires Valid()
      modifies this
      ensures Valid()
      ensures synonyms == Resolve(old(synonymCache), word, response).synonyms
      ensures synonymCache == Resolve(old(synonymCache), word, response).cache
    {
      var normalized := Normalize(word);
      NormalizeIsNormal(word);
      ResolveKeepsCacheValid(synonymCache, word, response);
      if normalized == "" {
        return [];
      }
      if normalized in synonymCache {
        return synonymCache[normalized];
      }
      match response {
        case NotOk(_) =>
          synonymCache := synonymCache[normalized := []];
          return [];
        case Failed =>
          synonymCache := synonymCache[normalized := []];
          return [];
        case Ok(words) =>
          synonyms := CleanWords(words, normalized);
          synonymCache := synonymCache[normalized := synonyms];
      }
    }

    method ClearCache()
      modifies this
      ensures Valid() && synonymCache == map[]
    {
      synonymCache := map[];
    }

    /** The number of cached words. */
    function GetCacheSize(): (n: nat)
      reads this
      ensures n == |synonymCache.Keys|
    {
      |synonymCache|
    }
  }
}
