/**
  The stored navigation document and the two list helpers the webhook uses on it:
  `findIndex` by id (for update) and `filter` by id (for delete).
 */
module Navigation {
  import opened Wrappers

  /** A link is a JSON object whose fields (id, title, url, category, icon, ...) are strings. */
  type Link = map<string, string>

  /** The single stored document `{links, lastUpdated}`. */
  datatype Document = Document(links: seq<Link>, lastUpdated: Option<string>)

  /** Every way the webhook can reject a request. */
  datatype Error =
    | ServerMisconfigured     // no secret configured
    | Unauthorized            // Authorization header absent or wrong
    | MalformedBody           // decoding or destructuring the body throws
    | MissingAction           // `action` is falsy
    | MissingLinkFields       // add without a truthy title and url
    | MissingLinkId           // update or delete without a truthy id
    | UpdateTargetNotFound    // update of an id no link carries
    | DeleteTargetNotFound    // delete of an id no link carries
    | InvalidLinksArray       // replace without an array
    | UnsupportedAction(action: string)

  /** JavaScript truthiness of an optional string: present and non-empty. */
  predicate Truthy(v: Option<string>)
  {
    v.Some? && v.value != ""
  }

  /** JavaScript truthiness of `l[field]`. */
  predicate Present(l: Link, field: string)
  {
    field in l && l[field] != ""
  }

  /** `l.id === id` */
  predicate HasId(l: Link, id: string)
  {
    "id" in l && l["id"] == id
  }

  /** No two links that carry an id carry the same one. */
  ghost predicate UniqueIds(links: seq<Link>)
  {
    forall i, j :: 0 <= i < j < |links| && "id" in links[i] && "id" in links[j] ==> links[i]["id"] != links[j]["id"]
  }

  /** `links.findIndex(l => l.id === id)`: the first position carrying `id`, or -1. */
  function FindIndex(links: seq<Link>, id: string): (r: int)
    ensures -1 <= r < |links|
    ensures 0 <= r ==> HasId(links[r], id) && forall j :: 0 <= j < r ==> !HasId(links[j], id)
    ensures r == -1 <==> forall j :: 0 <= j < |links| ==> !HasId(links[j], id)
  {
    if links == [] then -1
    else if HasId(links[0], id) then 0
    else
      var r := FindIndex(links[1..], id);
      assert forall j :: 1 <= j < |links| ==> links[j] == links[1..][j - 1];
      if r == -1 then -1 else r + 1
  }

  /** `links.filter(l => l.id !== id)`: every link not carrying `id`, in their order. */
  function RemoveId(links: seq<Link>, id: string): (r: seq<Link>)
    ensures |r| <= |links|
    ensures forall k :: 0 <= k < |r| ==> !HasId(r[k], id)
    ensures forall l :: l in r <==> l in links && !HasId(l, id)
    ensures |r| == |links| <==> forall j :: 0 <= j < |links| ==> !HasId(links[j], id)
  {
    if links == [] then []
    else
      assert forall j :: 1 <= j < |links| ==> links[j] == links[1..][j - 1];
      assert links == [links[0]] + links[1..];
      if HasId(links[0], id) then RemoveId(links[1..], id)
      else [links[0]] + RemoveId(links[1..], id)
  }

  /** Filtering distributes over concatenation, so the kept links stay in their order. */
  lemma {:induction false} RemoveIdAppend(a: seq<Link>, b: seq<Link>, id: string)
    ensures RemoveId(a + b, id) == RemoveId(a, id) + RemoveId(b, id)
  {
    if a != [] {
      assert (a + b)[0] == a[0];
      assert (a + b)[1..] == a[1..] + b;
      RemoveIdAppend(a[1..], b, id);
    } else {
      assert a + b == b;
    }
  }

  /** Each link without `id` keeps its multiplicity; each link with `id` disappears. */
  lemma {:induction false} RemoveIdCount(links: seq<Link>, id: string, l: Link)
    ensures multiset(RemoveId(links, id))[l] == if HasId(l, id) then 0 else multiset(links)[l]
  {
    if links != [] {
      assert links == [links[0]] + links[1..];
      RemoveIdCount(links[1..], id, l);
    }
  }

  /** Filtering a list in which no link carries `id` changes nothing. */
  lemma {:induction false} RemoveIdNoMatch(links: seq<Link>, id: string)
    requires forall j :: 0 <= j < |links| ==> !HasId(links[j], id)
    ensures RemoveId(links, id) == links
  {
    if links != [] {
      assert links == [links[0]] + links[1..];
      RemoveIdNoMatch(links[1..], id);
    }
  }

  /** Filtering twice by the same id is the same as filtering once. */
  lemma RemoveIdIdempotent(links: seq<Link>, id: string)
    ensures RemoveId(RemoveId(links, id), id) == RemoveId(links, id)
  {
    RemoveIdNoMatch(RemoveId(links, id), id);
  }

  /** When ids are unique, filtering by an id some link carries removes exactly one link. */
  lemma {:induction false} RemoveIdUniqueDropsOne(links: seq<Link>, id: string)
    requires UniqueIds(links)
    requires exists j :: 0 <= j < |links| && HasId(links[j], id)
    ensures |RemoveId(links, id)| == |links| - 1
  {
    var tail := links[1..];
    assert forall j :: 0 <= j < |tail| ==> tail[j] == links[j + 1];
    if HasId(links[0], id) {
      forall j | 0 <= j < |tail|
        ensures !HasId(tail[j], id)
      {
        assert links[j + 1] == tail[j];
      }
      RemoveIdNoMatch(tail, id);
    } else {
      var j :| 0 <= j < |links| && HasId(links[j], id);
      assert HasId(tail[j - 1], id);
      assert UniqueIds(tail);
      RemoveIdUniqueDropsOne(tail, id);
    }
  }

  /** Filtering keeps ids unique. */
  lemma {:induction false} RemoveIdKeepsUniqueIds(links: seq<Link>, id: string)
    requires UniqueIds(links)
    ensures UniqueIds(RemoveId(links, id))
  {
    if links != [] {
      var tail := links[1..];
      assert forall j :: 0 <= j < |tail| ==> tail[j] == links[j + 1];
      assert UniqueIds(tail);
      RemoveIdKeepsUniqueIds(tail, id);
      var rest := RemoveId(tail, id);
      if !HasId(links[0], id) {
        var r := [links[0]] + rest;
        forall i, j | 0 <= i < j < |r| && "id" in r[i] && "id" in r[j]
          ensures r[i]["id"] != r[j]["id"]
        {
          if i == 0 {
            assert r[j] == rest[j - 1] && rest[j - 1] in tail;
            var k :| 0 <= k < |tail| && tail[k] == rest[j - 1];
            assert links[k + 1] == r[j];
          } else {
            assert r[i] == rest[i - 1] && r[j] == rest[j - 1];
          }
        }
      }
    }
  }
}
