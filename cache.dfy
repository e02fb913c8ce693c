/**
 * The content cache of `MemoryManager` (main.py:93-146): a dictionary from
 * URL to extracted text with at most `max_cache_size` entries. When it is
 * full, the older half of the entries (in insertion order) is kept and the
 * newer half evicted.
 */
module Cache {
  import opened Options

  predicate Distinct(s: seq<string>) {
    forall i, j :: 0 <= i < j < |s| ==> s[i] != s[j]
  }

  lemma {:induction false} DistinctElementCount(s: seq<string>)
    requires Distinct(s)
    ensures |set x | x in s| == |s|
  {
    if s != [] {
      DistinctElementCount(s[1..]);
      assert (set x | x in s) == {s[0]} + (set x | x in s[1..]);
      assert s[0] !in (set x | x in s[1..]);
    }
  }

  /** Removing the key at position `p` of a duplicate-free key order. */
  lemma RemoveAt(s: seq<string>, p: nat)
    requires Distinct(s) && p < |s|
    ensures Distinct(s[..p] + s[p + 1..])
    ensures forall k :: k in s[..p] + s[p + 1..] <==> k in s && k != s[p]
  {
    var t := s[..p] + s[p + 1..];
    forall k ensures k in t <==> k in s && k != s[p] {
      if k in t {
        var j :| 0 <= j < |t| && t[j] == k;
        if j < p { assert t[j] == s[j]; } else { assert t[j] == s[j + 1]; }
      }
      if k in s && k != s[p] {
        var j :| 0 <= j < |s| && s[j] == k;
        if j < p { assert t[j] == k; } else { assert t[j - 1] == k; }
      }
    }
    forall i, j | 0 <= i < j < |t| ensures t[i] != t[j] {
      var i' := if i < p then i else i + 1;
      var j' := if j < p then j else j + 1;
      assert t[i] == s[i'] && t[j] == s[j'];
    }
  }

  /**
   * The key order after `add_content(url, ...)` on a cache with key order
   * `order`: a full cache keeps its older half, and then `url` is appended
   * unless it survived.
   */
  function OrderAfterAdd(order: seq<string>, url: string, maxCacheSize: nat): seq<string> {
    var kept := if |order| >= maxCacheSize then order[..|order| / 2] else order;
    if url in kept then kept else kept + [url]
  }

  class MemoryManager {
    const maxCacheSize: nat := 100

    /**
     * The keys of `content_cache` in insertion order: a Python dictionary
     * iterates its keys in that order, and assigning to a key it already
     * holds leaves that key where it was.
     */
    var order: seq<string>
    var contentCache: map<string, string>

    ghost predicate Valid()
      reads this
    {
      && Distinct(order)
      && forall k :: k in contentCache <==> k in order
    }

    /** `len(self.content_cache)` is the length of the key order. */
    lemma SizeIsEntryCount()
      requires Valid()
      ensures |contentCache| == |order|
    {
      DistinctElementCount(order);
      assert contentCache.Keys == set x | x in order;
    }

    constructor ()
      ensures Valid()
      ensures order == [] && contentCache == map[]
    {
      order := [];
      contentCache := map[];
    }

    /** `get_content(url)`: the cached text, or None. */
    method GetContent(url: string) returns (r: Option<string>)
      requires Valid()
      ensures r.Some? <==> url in contentCache
      ensures r.Some? ==> r.value == contentCache[url]
    {
      if url in contentCache {
        r := Some(contentCache[url]);
      } else {
        r := None;
      }
    }

    /**
     * `add_content(url, content)`: a full cache is first cut to its older
     * half; then `url` maps to `content`, keeping its place if it survived.
     */
    method AddContent(url: string, content: string)
      requires Valid()
      modifies this
      ensures Valid()
      ensures url in contentCache && contentCache[url] == content
      ensures old(|order|) <= maxCacheSize ==> |order| <= maxCacheSize
      ensures order == OrderAfterAdd(old(order), url, maxCacheSize)
      ensures forall k :: k in contentCache ==> k in old(contentCache) || k == url
      ensures forall k :: k in contentCache && k != url ==> contentCache[k] == old(contentCache)[k]
    {
      SizeIsEntryCount();
      if |order| >= maxCacheSize {
        CleanupCache();
      }
      Store(url, content);
    }

    /**
     * `content_cache[url] = content`: a new key goes to the end of the key
     * order, an existing one keeps its place.
     */
    method Store(url: string, content: string)
      requires Valid()
      modifies this
      ensures Valid()
      ensures order == if url in old(order) then old(order) else old(order) + [url]
      ensures contentCache == old(contentCache)[url := content]
    {
      if url !in contentCache {
        order := order + [url];
      }
      contentCache := contentCache[url := content];
    }

    /** `del content_cache[key]`, where `key` is the `p`-th key in insertion order. */
    method Delete(key: string, p: nat)
      requires Valid() && p < |order| && order[p] == key
      modifies this
      ensures Valid()
      ensures order == old(order)[..p] + old(order)[p + 1..]
      ensures contentCache == old(contentCache) - {key}
    {
      RemoveAt(order, p);
      contentCache := contentCache - {key};
      order := order[..p] + order[p + 1..];
    }

    /**
     * `cleanup_cache()`: keeps the first `len // 2` keys in insertion order,
     * with their values, and deletes every other key.
     */
    method CleanupCache()
      requires Valid()
      modifies this
      ensures Valid()
      ensures order == old(order)[..old(|order|) / 2]
      ensures forall k :: k in contentCache ==> k in old(contentCache) && contentCache[k] == old(contentCache)[k]
    {
      var itemsToKeep := |order| / 2;
      var keysToRemove := order[itemsToKeep..];
      var i := 0;
      while i < |keysToRemove|
        invariant 0 <= i <= |keysToRemove|
        invariant order == old(order)[..itemsToKeep] + keysToRemove[i..]
        invariant Valid()
        invariant forall k :: k in contentCache ==> contentCache[k] == old(contentCache)[k]
      {
        var key := keysToRemove[i];
        // The key is the oldest of those still to go, so it sits right after
        // the kept prefix.
        ghost var before := order;
        assert before[itemsToKeep] == key;
        Delete(key, itemsToKeep);
        assert order == old(order)[..itemsToKeep] + keysToRemove[i + 1..] by {
          assert before[..itemsToKeep] == old(order)[..itemsToKeep];
          assert before[itemsToKeep + 1..] == keysToRemove[i + 1..];
        }
        i := i + 1;
      }
    }
  }
}
