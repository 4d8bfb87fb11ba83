/**
  The authenticated POST handler: guard chain, read with fallback, the action switch,
  timestamp, single write, and the mapping of every outcome to a status code.
  The key-value namespace is a store object holding the one document under key
  "links"; the clock and the id generator are the parameters `now` and `freshId`.
 */
module Webhook {
  import opened Wrappers
  import opened Navigation
  import opened Mutation

  /** The request body after JSON decoding: a body whose decoding or destructuring throws,
      or the fields `{action, link, links}` (absent ones are None). */
  datatype Payload =
    | Unparseable
    | Parsed(action: Option<string>, link: Option<Link>, links: Option<LinksArg>)

  /** The JSON reply: `{success, message, count, lastUpdated}` or `{error}`. */
  datatype Reply = Done(action: string, count: nat, lastUpdated: string) | Rejected(error: Error)

  datatype Response = Response(status: nat, reply: Reply)

  /** What one request does: its response, whether it read the store, and what it wrote. */
  datatype Effect = Effect(response: Response, readStore: bool, write: Option<Document>)

  /** Missing secret is a server error, a bad token 401, and everything thrown 400. */
  function StatusOf(e: Error): nat
  {
    match e
    case ServerMisconfigured => 500
    case Unauthorized => 401
    case _ => 400
  }

  function Reject(e: Error): Response
  {
    Response(StatusOf(e), Rejected(e))
  }

  /** The only Authorization header the handler accepts. */
  function Bearer(secret: string): string
  {
    "Bearer " + secret
  }

  /** The document the handler starts from: the stored one, or `{links: []}`. */
  function CurrentOrEmpty(stored: Option<Document>): (d: Document)
    ensures stored.Some? ==> d == stored.value
    ensures d.links == [] <==> stored.None? || stored.value.links == []
  {
    if stored.Some? then stored.value else Document([], None)
  }

  /** The effect one POST request has, given the configured secret, the Authorization
      header, the decoded body and the stored document. */
  function Expected(secret: Option<string>, authHeader: Option<string>, payload: Payload,
                    stored: Option<Document>, now: string, freshId: string): (e: Effect)
    // the secret is checked first; the header must be exactly "Bearer <secret>"
    ensures e.response.status == 500 <==> !Truthy(secret)
    ensures e.response.status == 401 <==> Truthy(secret) && authHeader != Some(Bearer(secret.value))
    // the store is read only once the guards and the action check have passed
    ensures e.readStore <==>
              Truthy(secret) && authHeader == Some(Bearer(secret.value)) && payload.Parsed? && Truthy(payload.action)
    // a write happens exactly on success, after a read, and it commits what the switch produced
    ensures e.write.Some? <==> e.response.status == 200
    ensures e.write.Some? <==>
              e.readStore && Apply(CurrentOrEmpty(stored).links, payload.action.value, payload.link, payload.links, freshId).Success?
    ensures e.write.Some? ==>
              && e.write.value.links == Apply(CurrentOrEmpty(stored).links, payload.action.value, payload.link, payload.links, freshId).value
              && e.write.value.lastUpdated == Some(now)
              && e.response.reply == Done(payload.action.value, |e.write.value.links|, now)
    // every other outcome is a rejection with the status of its error
    ensures e.write.None? ==> e.response.reply.Rejected? && e.response.status == StatusOf(e.response.reply.error)
    ensures e.readStore && e.write.None? ==> e.response.status == 400
    // a rejection carries the error that was thrown
    ensures e.readStore && e.write.None? ==>
              e.response == Reject(Apply(CurrentOrEmpty(stored).links, payload.action.value, payload.link, payload.links, freshId).error)
    ensures Truthy(secret) && authHeader == Some(Bearer(secret.value)) && payload.Unparseable? ==>
              e.response == Reject(MalformedBody)
    ensures Truthy(secret) && authHeader == Some(Bearer(secret.value)) && payload.Parsed? && !Truthy(payload.action) ==>
              e.response == Reject(MissingAction)
  {
    if !Truthy(secret) then Effect(Reject(ServerMisconfigured), false, None)
    else if !Truthy(authHeader) || authHeader.value != Bearer(secret.value) then Effect(Reject(Unauthorized), false, None)
    else if payload.Unparseable? then Effect(Reject(MalformedBody), false, None)
    else if !Truthy(payload.action) then Effect(Reject(MissingAction), false, None)
    else
      match Apply(CurrentOrEmpty(stored).links, payload.action.value, payload.link, payload.links, freshId)
      case Failure(err) => Effect(Reject(err), true, None)
      case Success(links) =>
        Effect(Response(200, Done(payload.action.value, |links|, now)), true, Some(Document(links, Some(now))))
  }

  /** The key-value namespace, holding the document stored under "links" (if any),
      with a count of the reads and writes made against it. */
  class KvStore {
    var value: Option<Document>
    var readCount: nat
    var writeCount: nat

    constructor (initial: Option<Document>)
      ensures value == initial && readCount == 0 && writeCount == 0
    {
      value := initial;
      readCount, writeCount := 0, 0;
    }

    /** `get('links', 'json')` */
    method Get() returns (v: Option<Document>)
      modifies this
      ensures v == value && value == old(value)
      ensures readCount == old(readCount) + 1 && writeCount == old(writeCount)
    {
      v := value;
      readCount := readCount + 1;
    }

    /** `put('links', ...)`: overwrites unconditionally. */
    method Put(doc: Document)
      modifies this
      ensures value == Some(doc)
      ensures readCount == old(readCount) && writeCount == old(writeCount) + 1
    {
      value := Some(doc);
      writeCount := writeCount + 1;
    }
  }

  /** `onRequestPost`: the handler itself, mutating its working copy step by step. */
  method OnRequestPost(kv: KvStore, secret: Option<string>, authHeader: Option<string>, payload: Payload,
                       now: string, freshId: string)
    returns (response: Response)
    modifies kv
    ensures var e := Expected(secret, authHeader, payload, old(kv.value), now, freshId);
      && response == e.response
      && kv.readCount == old(kv.readCount) + (if e.readStore then 1 else 0)
      && kv.writeCount == old(kv.writeCount) + (if e.write.Some? then 1 else 0)
      && kv.value == (if e.write.Some? then e.write else old(kv.value))
  {
    if !Truthy(secret) {
      return Reject(ServerMisconfigured);
    }
    if !Truthy(authHeader) || authHeader.value != Bearer(secret.value) {
      return Reject(Unauthorized);
    }
    if payload.Unparseable? {
      return Reject(MalformedBody);
    }
    var action, link, links := payload.action, payload.link, payload.links;
    if !Truthy(action) {
      return Reject(MissingAction);
    }

    var stored := kv.Get();
    var current := if stored.Some? then stored.value else Document([], None);

    if action.value == "add" {
      if link.None? || !Present(link.value, "title") || !Present(link.value, "url") {
        return Reject(MissingLinkFields);
      }
      var added := link.value;
      if !Present(added, "id") {
        added := added["id" := freshId];
      }
      current := current.(links := current.links + [added]);
    } else if action.value == "update" {
      if link.None? || !Present(link.value, "id") {
        return Reject(MissingLinkId);
      }
      var index := FindIndex(current.links, link.value["id"]);
      if index == -1 {
        return Reject(UpdateTargetNotFound);
      }
      current := current.(links := current.links[index := current.links[index] + link.value]);
    } else if action.value == "delete" {
      if link.None? || !Present(link.value, "id") {
        return Reject(MissingLinkId);
      }
      var originalCount := |current.links|;
      current := current.(links := RemoveId(current.links, link.value["id"]));
      if |current.links| == originalCount {
        return Reject(DeleteTargetNotFound);
      }
    } else if action.value == "replace" {
      if links.None? || !links.value.LinksArray? {
        return Reject(InvalidLinksArray);
      }
      current := current.(links := links.value.items);
    } else {
      return Reject(UnsupportedAction(action.value));
    }

    current := current.(lastUpdated := Some(now));
    kv.Put(current);
    response := Response(200, Done(action.value, |current.links|, now));
  }

  /** With nothing stored the handler starts from an empty list: update and delete
      fail with "not found", and a valid add stores a one-element list. */
  lemma EmptyStoreActsAsEmptyList(secret: string, link: Link, now: string, freshId: string)
    requires secret != ""
    ensures var auth := Some(Bearer(secret));
      && Expected(Some(secret), auth, Parsed(Some("update"), Some(link), None), None, now, freshId).response.status == 400
      && Expected(Some(secret), auth, Parsed(Some("delete"), Some(link), None), None, now, freshId).response.status == 400
      && Expected(Some(secret), auth, Parsed(Some("delete"), Some(link), None), None, now, freshId).write == None
      && (Present(link, "title") && Present(link, "url") ==>
            Expected(Some(secret), auth, Parsed(Some("add"), Some(link), None), None, now, freshId)
              == Effect(Response(200, Done("add", 1, now)), true, Some(Document([WithId(link, freshId)], Some(now)))))
  {
    assert Truthy(Some(Bearer(secret)));
    assert [] + [WithId(link, freshId)] == [WithId(link, freshId)];
  }

  /** Two identical authorised delete requests in a row: the first commits a shorter
      list, the second is rejected with 400 and writes nothing. */
  lemma SecondDeleteRejected(secret: Option<string>, authHeader: Option<string>, link: Option<Link>,
                             stored: Option<Document>, now: string, later: string, freshId: string)
    requires Expected(secret, authHeader, Parsed(Some("delete"), link, None), stored, now, freshId).write.Some?
    ensures var first := Expected(secret, authHeader, Parsed(Some("delete"), link, None), stored, now, freshId);
      var second := Expected(secret, authHeader, Parsed(Some("delete"), link, None), first.write, later, freshId);
      && first.response.reply.count < |CurrentOrEmpty(stored).links|
      && second.response == Reject(DeleteTargetNotFound)
      && second.write == None
  {
    var links := CurrentOrEmpty(stored).links;
    DeleteTwiceFails(links, link, None, freshId);
  }
}
