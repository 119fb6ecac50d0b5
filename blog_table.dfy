/**
 * The 'BlogPosts' table as the handler sees it: items keyed by their PostID, a
 * `put` that inserts or replaces the item with that key, and a `scan` that
 * returns every item once, in an order the store chooses. A store error is
 * injected by the caller as the message the failing call throws.
 */
module BlogTable {
  import opened Wrappers
  import opened JsRuntime

  /** One blog post as the handler writes it; `dateCreated` is a time in milliseconds. */
  datatype Post = Post(
    postId: string,
    title: Json,
    content: Json,
    author: Json,
    dateCreated: int,
    comments: seq<Json>)

  /** `posts` lists the table `m`: one entry per key, each the item stored under its own id. */
  ghost predicate IsListing(posts: seq<Post>, m: map<string, Post>) {
    && |posts| == |m|
    && (forall i :: 0 <= i < |posts| ==> posts[i].postId in m && m[posts[i].postId] == posts[i])
    && (forall k :: k in m ==> exists i :: 0 <= i < |posts| && posts[i].postId == k)
  }

  /** Any reordering of a listing is a listing of the same table. */
  lemma ListingPermuted(s: seq<Post>, t: seq<Post>, m: map<string, Post>)
    requires IsListing(s, m)
    requires multiset(s) == multiset(t)
    ensures IsListing(t, m)
  {
    assert |t| == |multiset(t)| == |multiset(s)| == |s|;
    forall i | 0 <= i < |t|
      ensures t[i].postId in m && m[t[i].postId] == t[i]
    {
      assert t[i] in multiset(t);
      assert t[i] in s;
    }
    forall k | k in m
      ensures exists j :: 0 <= j < |t| && t[j].postId == k
    {
      var i :| 0 <= i < |s| && s[i].postId == k;
      assert s[i] in multiset(s);
      assert s[i] in t;
      var j :| 0 <= j < |t| && t[j] == s[i];
    }
  }

  class Table {
    var items: map<string, Post>

    /** Every item is stored under its own PostID. */
    ghost predicate Valid()
      reads this
    {
      forall k :: k in items ==> items[k].postId == k
    }

    constructor ()
      ensures Valid() && items == map[]
    {
      items := map[];
    }

    /** `put`: on success the item is stored under its id, replacing any item there; a failed put changes nothing. */
    method Put(item: Post, fault: Option<string>) returns (err: Option<string>)
      requires Valid()
      modifies this
      ensures Valid()
      ensures err == fault
      ensures items == if fault.None? then old(items)[item.postId := item] else old(items)
    {
      if fault.Some? {
        return fault;
      }
      items := items[item.postId := item];
      return None;
    }

    /** `scan`: every item of the table exactly once, in an unspecified order, or the store's error. */
    method Scan(fault: Option<string>) returns (r: Result<seq<Post>, string>)
      requires Valid()
      ensures fault.Some? ==> r == Failure(fault.value)
      ensures fault.None? ==> r.Success? && IsListing(r.value, items)
    {
      if fault.Some? {
        return Failure(fault.value);
      }
      var found: seq<Post> := [];
      var rest := items.Keys;
      while rest != {}
        invariant rest <= items.Keys
        invariant |found| + |rest| == |items|
        invariant forall i :: 0 <= i < |found| ==> found[i].postId in items - rest && items[found[i].postId] == found[i]
        invariant forall k :: k in items && k !in rest ==> exists i :: 0 <= i < |found| && found[i].postId == k
        decreases rest
      {
        var k :| k in rest;
        ghost var before := found;
        found := found + [items[k]];
        rest := rest - {k};
        forall k' | k' in items && k' !in rest
          ensures exists i :: 0 <= i < |found| && found[i].postId == k'
        {
          if k' == k {
            assert found[|before|].postId == k';
          } else {
            var i :| 0 <= i < |before| && before[i].postId == k';
            assert found[i] == before[i];
          }
        }
      }
      return Success(found);
    }
  }
}
