/**
  The action switch of the webhook as a function of the current links: what each of
  add, update, delete and replace does to the list, and when it throws.
 */
module Mutation {
  import opened Wrappers
  import opened Navigation

  /** The request's `links` field: an array of links, or any other JSON value. */
  datatype LinksArg = LinksArray(items: seq<Link>) | NotAnArray

  /** `link.id = link.id || freshId`: the payload link with a generated id when it has none. */
  function WithId(link: Link, freshId: string): (r: Link)
    ensures r.Keys == link.Keys + {"id"}
    ensures r["id"] == if Present(link, "id") then link["id"] else freshId
    ensures forall k :: k in link && k != "id" ==> r[k] == link[k]
  {
    if Present(link, "id") then link else link["id" := freshId]
  }

  /** The new list after applying `action`, or the error the switch throws. */
  function Apply(links: seq<Link>, action: string, link: Option<Link>, items: Option<LinksArg>, freshId: string)
    : (r: Result<seq<Link>, Error>)
    ensures r.Success? ==> action in {"add", "update", "delete", "replace"}
    ensures action !in {"add", "update", "delete", "replace"} ==> r == Failure(UnsupportedAction(action))
    ensures r.Success? && action == "add" ==> |r.value| == |links| + 1 && r.value[..|links|] == links
    ensures r.Success? && action == "update" ==> |r.value| == |links|
    ensures r.Success? && action == "delete" ==> |r.value| < |links|
  {
    if action == "add" then
      if link.None? || !Present(link.value, "title") || !Present(link.value, "url") then Failure(MissingLinkFields)
      else Success(links + [WithId(link.value, freshId)])
    else if action == "update" then
      if link.None? || !Present(link.value, "id") then Failure(MissingLinkId)
      else
        var index := FindIndex(links, link.value["id"]);
        if index == -1 then Failure(UpdateTargetNotFound)
        else Success(links[index := links[index] + link.value])
    else if action == "delete" then
      if link.None? || !Present(link.value, "id") then Failure(MissingLinkId)
      else
        var kept := RemoveId(links, link.value["id"]);
        if |kept| == |links| then Failure(DeleteTargetNotFound) else Success(kept)
    else if action == "replace" then
      if items.Some? && items.value.LinksArray? then Success(items.value.items)
      else Failure(InvalidLinksArray)
    else
      Failure(UnsupportedAction(action))
  }

  /** add succeeds exactly when title and url are truthy; it appends one link, last,
      carrying the payload id if truthy and the generated id otherwise. */
  lemma AddAppendsLink(links: seq<Link>, link: Option<Link>, items: Option<LinksArg>, freshId: string)
    ensures var r := Apply(links, "add", link, items, freshId);
      && (r.Success? <==> link.Some? && Present(link.value, "title") && Present(link.value, "url"))
      && (r.Failure? ==> r.error == MissingLinkFields)
      && (r.Success? ==>
            && |r.value| == |links| + 1
            && r.value[..|links|] == links
            && var added := r.value[|links|];
            && added.Keys == link.value.Keys + {"id"}
            && added["id"] == (if Present(link.value, "id") then link.value["id"] else freshId)
            && forall k :: k in link.value && k != "id" ==> added[k] == link.value[k])
  {
  }

  /** add never checks that the new id is unused: it can create a duplicate id. */
  lemma AddAllowsDuplicateIds()
    ensures var existing := map["id" := "1", "title" := "Google", "url" := "https://google.com"];
      && UniqueIds([existing])
      && Apply([existing], "add", Some(existing), None, "1700000000000") == Success([existing, existing])
      && !UniqueIds([existing, existing])
  {
    var existing := map["id" := "1", "title" := "Google", "url" := "https://google.com"];
    assert Present(existing, "id") && Present(existing, "title") && Present(existing, "url");
    assert WithId(existing, "1700000000000") == existing;
    assert [existing] + [existing] == [existing, existing];
    var two := [existing, existing];
    assert "id" in two[0] && "id" in two[1] && two[0]["id"] == two[1]["id"];
  }

  /** add keeps ids unique when the id the new link gets is not yet in use. */
  lemma AddKeepsUniqueIds(links: seq<Link>, link: Link, items: Option<LinksArg>, freshId: string)
    requires UniqueIds(links)
    requires forall j :: 0 <= j < |links| ==> !HasId(links[j], WithId(link, freshId)["id"])
    ensures var r := Apply(links, "add", Some(link), items, freshId);
      r.Success? ==> UniqueIds(r.value)
  {
  }

  /** update succeeds exactly when the id is truthy and some link carries it. It then
      merges the payload into the FIRST such link (payload fields win, the other fields
      stay) and leaves the length and every other position unchanged. */
  lemma UpdateMergesFirstMatch(links: seq<Link>, link: Option<Link>, items: Option<LinksArg>, freshId: string)
    ensures var r := Apply(links, "update", link, items, freshId);
      && (link.None? || !Present(link.value, "id") ==> r == Failure(MissingLinkId))
      && (link.Some? && Present(link.value, "id") ==>
            (r.Success? <==> exists j :: 0 <= j < |links| && HasId(links[j], link.value["id"])))
      && (r.Failure? ==> r.error in {MissingLinkId, UpdateTargetNotFound})
      && (link.Some? && Present(link.value, "id") && r.Failure? ==> r.error == UpdateTargetNotFound)
      && (r.Success? ==>
            var id := link.value["id"];
            var i := FindIndex(links, id);
            && |r.value| == |links|
            && 0 <= i < |links| && HasId(links[i], id)
            && (forall j :: 0 <= j < i ==> !HasId(links[j], id))
            && (forall j :: 0 <= j < |links| && j != i ==> r.value[j] == links[j])
            && r.value[i].Keys == links[i].Keys + link.value.Keys
            && (forall k :: k in link.value ==> r.value[i][k] == link.value[k])
            && (forall k :: k in links[i] && k !in link.value ==> r.value[i][k] == links[i][k]))
  {
  }

  /** update keeps the id of the link it changes, so it keeps ids unique. */
  lemma UpdateKeepsUniqueIds(links: seq<Link>, link: Option<Link>, items: Option<LinksArg>, freshId: string)
    requires UniqueIds(links)
    ensures var r := Apply(links, "update", link, items, freshId);
      r.Success? ==> UniqueIds(r.value)
  {
    var r := Apply(links, "update", link, items, freshId);
    if r.Success? {
      var i := FindIndex(links, link.value["id"]);
      assert forall j :: 0 <= j < |links| ==> ("id" in r.value[j] <==> "id" in links[j]);
      assert forall j :: 0 <= j < |links| && "id" in links[j] ==> r.value[j]["id"] == links[j]["id"];
    }
  }

  /** delete succeeds exactly when the id is truthy and some link carries it. It then
      removes every link carrying it, keeps the others in order, and shortens the list,
      by exactly one when ids were unique. */
  lemma DeleteRemovesEveryMatch(links: seq<Link>, link: Option<Link>, items: Option<LinksArg>, freshId: string)
    ensures var r := Apply(links, "delete", link, items, freshId);
      && (link.None? || !Present(link.value, "id") ==> r == Failure(MissingLinkId))
      && (link.Some? && Present(link.value, "id") ==>
            (r.Success? <==> exists j :: 0 <= j < |links| && HasId(links[j], link.value["id"])))
      && (r.Failure? ==> r.error in {MissingLinkId, DeleteTargetNotFound})
      && (link.Some? && Present(link.value, "id") && r.Failure? ==> r.error == DeleteTargetNotFound)
      && (r.Success? ==>
            var id := link.value["id"];
            && r.value == RemoveId(links, id)
            && |r.value| < |links|
            && (UniqueIds(links) ==> |r.value| == |links| - 1)
            && (forall k :: 0 <= k < |r.value| ==> !HasId(r.value[k], id))
            && (forall l :: l in r.value <==> l in links && !HasId(l, id)))
  {
    var r := Apply(links, "delete", link, items, freshId);
    if r.Success? && UniqueIds(links) {
      RemoveIdUniqueDropsOne(links, link.value["id"]);
    }
  }

  /** Deleting the same id a second time fails, so the count never drops below zero. */
  lemma DeleteTwiceFails(links: seq<Link>, link: Option<Link>, items: Option<LinksArg>, freshId: string)
    requires Apply(links, "delete", link, items, freshId).Success?
    ensures var once := Apply(links, "delete", link, items, freshId).value;
      Apply(once, "delete", link, items, freshId) == Failure(DeleteTargetNotFound)
  {
  }

  /** delete keeps ids unique. */
  lemma DeleteKeepsUniqueIds(links: seq<Link>, link: Option<Link>, items: Option<LinksArg>, freshId: string)
    requires UniqueIds(links)
    ensures var r := Apply(links, "delete", link, items, freshId);
      r.Success? ==> UniqueIds(r.value)
  {
    if link.Some? && Present(link.value, "id") {
      RemoveIdKeepsUniqueIds(links, link.value["id"]);
    }
  }

  /** replace installs exactly the given array, unchecked, and fails on anything else. */
  lemma ReplaceSwapsWholeList(links: seq<Link>, link: Option<Link>, items: Option<LinksArg>, freshId: string)
    ensures var r := Apply(links, "replace", link, items, freshId);
      && (items.Some? && items.value.LinksArray? ==> r == Success(items.value.items))
      && (items.None? || items.value.NotAnArray? ==> r == Failure(InvalidLinksArray))
  {
  }

  /** Any action other than the four is rejected, naming the action. */
  lemma UnknownActionFails(links: seq<Link>, action: string, link: Option<Link>, items: Option<LinksArg>, freshId: string)
    requires action !in {"add", "update", "delete", "replace"}
    ensures Apply(links, action, link, items, freshId) == Failure(UnsupportedAction(action))
  {
  }
}
