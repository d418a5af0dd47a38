/** `inmemory.Store`: two maps updated in place, and responses whose deadlines
    move under them. */
module MemoryStore {
  import opened Options
  import opened Store

  class CachedResponse {
    const content: Content
    var expiresAt: int

    constructor (content: Content)
      ensures this.content == content
    {
      this.content, expiresAt := content, content.cachedAt;
    }
  }

  ghost function EntryOf(r: CachedResponse): Entry
    reads r
  {
    Entry(r.content, r.expiresAt)
  }

  class MemoryStore {
    var cache: map<string, CachedResponse>
    var tagIndex: Index

    constructor ()
      ensures Valid() && Shown() == EMPTY && cache == map[]
    {
      cache, tagIndex := map[], map[];
    }

    /** No response is stored under two keys. */
    ghost predicate Valid()
      reads this
    {
      forall j, k | j in cache && k in cache && cache[j] == cache[k] :: j == k
    }

    ghost function Shown(): View
      reads this, cache.Values
    {
      View(map k | k in cache :: EntryOf(cache[k]), tagIndex)
    }

    /** `Get`, with the clock read as `now`. */
    method Get(key: string, now: int) returns (response: CachedResponse?)
      requires Valid()
      modifies this, cache.Values
      ensures Valid() && cache.Values <= old(cache.Values)
      ensures Shown() == DoGet(old(Shown()), key, now)
      ensures match Hit(old(Shown()), key, now)
              case None => response == null
              case Some(e) => response != null && key in cache && cache[key] == response && EntryOf(response) == e
    {
      if key !in cache {
        return null;
      }
      response := cache[key];
      if now > response.expiresAt {
        Delete(key);
        return null;
      }
      if response.content.sliding {
        response.expiresAt := now + response.content.slide;
      }
      assert Shown().cache == DoGet(old(Shown()), key, now).cache;
    }

    method Set(key: string, response: CachedResponse, ttl: int)
      requires Valid() && forall k | k in cache && k != key :: cache[k] != response
      modifies this, response
      ensures Valid() && cache == old(cache)[key := response]
      ensures Shown() == DoSet(old(Shown()), key, response.content, ttl)
    {
      response.expiresAt := response.content.cachedAt + ttl;
      cache := cache[key := response];
      ListTags(response.content.tags, key);
      assert Shown().cache == DoSet(old(Shown()), key, response.content, ttl).cache;
    }

    /** The loop of `Set`. */
    method ListTags(tags: seq<string>, key: string)
      modifies this`tagIndex
      ensures tagIndex == List(old(tagIndex), tags, key)
    {
      for i := 0 to |tags|
        invariant tagIndex == List(old(tagIndex), tags[..i], key)
      {
        assert tags[..i + 1][..i] == tags[..i];
        tagIndex := tagIndex[tags[i] := (if tags[i] in tagIndex then tagIndex[tags[i]] else []) + [key]];
      }
      assert tags[..|tags|] == tags;
    }

    method Delete(key: string)
      requires Valid()
      modifies this
      ensures Valid() && cache == old(cache) - {key}
      ensures Shown() == DoDelete(old(Shown()), key)
    {
      if key !in cache {
        assert cache - {key} == cache;
        return;
      }
      var tags := cache[key].content.tags;
      for i := 0 to |tags|
        invariant cache == old(cache)
        invariant tagIndex == Unlist(old(tagIndex), tags[..i], key)
      {
        assert tags[..i + 1][..i] == tags[..i];
        UnlistTag(tags[i], key);
      }
      assert tags[..|tags|] == tags;
      cache := cache - {key};
      assert Shown().cache == DoDelete(old(Shown()), key).cache;
    }

    /** The inner loop of `Delete`: the first slot holding `key` goes, and an
        empty list with it. */
    method UnlistTag(tag: string, key: string)
      modifies this`tagIndex
      ensures tagIndex == UnlistUnder(old(tagIndex), tag, key)
    {
      var keys := if tag in tagIndex then tagIndex[tag] else [];
      var i := 0;
      while i < |keys| && keys[i] != key
        invariant i <= |keys| && key !in keys[..i]
      {
        i := i + 1;
      }
      if i < |keys| {
        RemoveFirstAt(keys[..i], key, keys[i + 1..]);
        assert keys == keys[..i] + [key] + keys[i + 1..];
        tagIndex := tagIndex[tag := keys[..i] + keys[i + 1..]];
      } else {
        RemoveFirstAbsent(keys, key);
      }
      if tag !in tagIndex || tagIndex[tag] == [] {
        tagIndex := tagIndex - {tag};
      }
    }

    method Clear()
      modifies this
      ensures Valid() && Shown() == EMPTY && cache == map[]
    {
      cache := map[];
      tagIndex := map[];
    }

    method InvalidateTag(tag: string)
      requires Valid()
      modifies this
      ensures Valid() && cache.Values <= old(cache.Values) && Shown() == DoInvalidateTag(old(Shown()), tag)
    {
      if tag !in tagIndex {
        assert tagIndex - {tag} == tagIndex;
        assert Shown().cache == DoInvalidateTag(old(Shown()), tag).cache;
        return;
      }
      var keys := tagIndex[tag];
      for i := 0 to |keys|
        invariant tagIndex == old(tagIndex) && Valid()
        invariant cache == old(cache) - (set k | k in keys[..i])
      {
        cache := cache - {keys[i]};
      }
      tagIndex := tagIndex - {tag};
      assert keys[..|keys|] == keys;
      assert Shown().cache == DoInvalidateTag(old(Shown()), tag).cache;
    }

    method InvalidateTags(tags: seq<string>)
      requires Valid()
      modifies this
      ensures Valid() && cache.Values <= old(cache.Values) && Shown() == DoInvalidateTags(old(Shown()), tags)
    {
      var keysToDelete: set<string> := {};
      for i := 0 to |tags|
        invariant cache == old(cache)
        invariant tagIndex == old(tagIndex) - (set t | t in tags[..i])
        invariant keysToDelete == KeysUnderAny(old(tagIndex), tags[..i])
      {
        assert tags[..i + 1] == tags[..i] + [tags[i]];
        if tags[i] in tagIndex {
          keysToDelete := keysToDelete + (set k | k in tagIndex[tags[i]]);
          tagIndex := tagIndex - {tags[i]};
        }
      }
      assert tags[..|tags|] == tags;
      cache := cache - keysToDelete;
      assert Shown().cache == DoInvalidateTags(old(Shown()), tags).cache;
    }

    /** `cleanup`, in whatever order the map is walked. */
    method Cleanup(now: int)
      requires Valid()
      modifies this
      ensures Valid() && cache.Values <= old(cache.Values) && Shown() == DoCleanup(old(Shown()), now)
    {
      var left := cache.Keys;
      while left != {}
        invariant left <= cache.Keys <= old(cache.Keys) && tagIndex == old(tagIndex) && Valid()
        invariant forall k | k in cache :: cache[k] == old(cache)[k]
        invariant forall k | k in old(cache) && k !in left :: k in cache <==> !Expired(EntryOf(old(cache)[k]), now)
      {
        var key :| key in left;
        if now > cache[key].expiresAt {
          cache := cache - {key};
        }
        left := left - {key};
      }
      assert Shown().cache == DoCleanup(old(Shown()), now).cache;
    }
  }
}
