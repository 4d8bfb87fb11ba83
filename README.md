# Navigation-links webhook, modelled in Dafny

The navigation site keeps one JSON document `{links, lastUpdated}` under the key
`links` of a key-value namespace. An authenticated POST webhook (`onRequestPost`)
reads it, applies one action (`add`, `update`, `delete`, `replace`) to its link
list, stamps `lastUpdated`, and writes it back once. This project models that
handler and proves what it does to the stored document and to the response.

- `wrappers.dfy` (module `Wrappers`): `Option` and `Result`.
- `navigation.dfy` (module `Navigation`): a `Link` is a `map<string, string>` (so a
  shallow merge `{...old, ...link}` is the right-biased map union `old + link`), the
  `Document`, every `Error` the handler can report, JavaScript truthiness of a field
  (`Present`: present and non-empty), and the two list helpers the handler calls,
  `findIndex` (`FindIndex`) and `filter` (`RemoveId`), with lemmas about them.
- `mutation.dfy` (module `Mutation`): the action switch as a function `Apply` of the
  current list, and one lemma per action saying when it succeeds, what the new list
  is, and which error it throws otherwise.
- `webhook.dfy` (module `Webhook`): the key-value namespace as a class `KvStore`
  holding the optional stored document and counting reads and writes; the whole
  request's effect as a function `Expected`; and the handler itself, the method
  `OnRequestPost`, which mutates a working copy step by step as the source does and
  is proved to produce exactly `Expected`'s response, reads and write.

The clock (`new Date().toISOString()`) and the id generator (`Date.now().toString()`)
are the parameters `now` and `freshId`; the configured secret and the
`Authorization` header are parameters too. The request body is taken already
decoded (`Payload`): `Unparseable` stands for a body whose decoding or
destructuring throws, which the handler turns into a 400 before touching storage.

Points where this handler's behaviour is easy to mistake for that of its neighbours:
- the webhook starts from `{links: []}` when nothing is stored, not from the sample
  list that the GET endpoints in `functions/api/links.js` and
  `functions/api/[...path].js` serve;
- deleting an id that no link carries is an error, not a no-op (the older copy of the
  webhook in `functions/api/[...path].js` is the no-op variant; it is not modelled);
- ids are not kept unique: `add` accepts a payload id already in use
  (`Mutation.AddAllowsDuplicateIds`) and `replace` installs any array of link
  objects unchecked (arrays with elements that are not objects are not modelled).
  `update` and `delete` do keep unique ids unique, and `add` does when the new id is
  unused;
- the success reply does not carry the generated link id of an `add`: it holds only
  `success`, `message`, `count` and `lastUpdated` (the older copy omits
  `lastUpdated`).

## Model

| member | source | states |
|---|---|---|
| `Mutation.Apply` | functions/api/webhook.js:45-89 | only the four actions can succeed and any other fails with UnsupportedAction carrying it; a successful add appends one link after the unchanged old ones, update keeps the length, delete shortens the list |
| `Mutation.WithId` | functions/api/webhook.js:51 | the added link has the payload's keys plus "id", its id is the payload id when truthy and the generated id otherwise, and every other field is the payload's |
| `Webhook.CurrentOrEmpty` | functions/api/webhook.js:43 | the handler starts from the stored document when there is one, and from an empty link list exactly when nothing is stored or the stored list is empty |
| `Navigation.FindIndex` | functions/api/webhook.js:60-61 | the result is -1 exactly when no link has the id; otherwise it is a position whose link has the id and no earlier link has it (the first match) |
| `Navigation.RemoveId` | functions/api/webhook.js:73 | the result is no longer than the input, contains no link with the id, contains exactly the input's links without the id, and has the same length exactly when no link has the id |
| `Navigation.RemoveIdAppend` | functions/api/webhook.js:73 | filtering distributes over concatenation, so the surviving links keep their relative order |
| `Navigation.RemoveIdCount` | functions/api/webhook.js:73 | every link without the id keeps its multiplicity and every link with the id disappears |
| `Navigation.RemoveIdNoMatch` | functions/api/webhook.js:73-76 | filtering a list where no link has the id returns the list unchanged |
| `Navigation.RemoveIdIdempotent` | functions/api/webhook.js:73 | filtering twice by one id equals filtering once |
| `Navigation.RemoveIdUniqueDropsOne` | functions/api/webhook.js:72-76 | when ids are unique and some link carries the id, filtering removes exactly one link |
| `Navigation.RemoveIdKeepsUniqueIds` | functions/api/webhook.js:73 | filtering a list with unique ids leaves unique ids |
| `Mutation.AddAppendsLink` | functions/api/webhook.js:46-53 | add succeeds iff link, title and url are truthy (else MissingLinkFields); the list grows by one, earlier links unchanged and in order, the new last link has the payload's fields plus an id that is the payload id if truthy and the generated id otherwise |
| `Mutation.AddAllowsDuplicateIds` | functions/api/webhook.js:48-52 | no uniqueness check: adding a link whose id is already used succeeds and leaves two links with one id |
| `Mutation.AddKeepsUniqueIds` | functions/api/webhook.js:51-52 | add keeps ids unique when the id the new link receives is not used yet |
| `Mutation.UpdateMergesFirstMatch` | functions/api/webhook.js:55-65 | a falsy link or id gives MissingLinkId; otherwise update succeeds iff some link has the id, and a truthy id that matches nothing fails with exactly UpdateTargetNotFound; on success the length and every position but the first match are unchanged, and that link becomes old merged with payload: payload fields win, absent fields keep their old values, keys are the union |
| `Mutation.UpdateKeepsUniqueIds` | functions/api/webhook.js:60-64 | update never changes any link's id, so unique ids stay unique |
| `Mutation.DeleteRemovesEveryMatch` | functions/api/webhook.js:67-77 | a falsy link or id gives MissingLinkId; otherwise delete succeeds iff some link has the id, and a truthy id that matches nothing fails with exactly DeleteTargetNotFound; on success the list is the filtered one, strictly shorter (by exactly one when ids were unique), with no link of that id and every other link kept |
| `Mutation.DeleteTwiceFails` | functions/api/webhook.js:72-76 | after a successful delete the same delete fails with DeleteTargetNotFound |
| `Mutation.DeleteKeepsUniqueIds` | functions/api/webhook.js:73 | delete keeps unique ids unique |
| `Mutation.ReplaceSwapsWholeList` | functions/api/webhook.js:79-85 | replace with an array yields exactly that array, unvalidated; a missing or non-array `links` gives InvalidLinksArray |
| `Mutation.UnknownActionFails` | functions/api/webhook.js:87-88 | any action other than the four fails with UnsupportedAction carrying the action |
| `Webhook.Expected` | functions/api/webhook.js:11-113 | 500 iff no secret is configured; 401 iff a secret is configured and the header is not exactly "Bearer " + secret; the store is read iff both guards pass, the body decodes and the action is truthy; a write happens iff the status is 200, only after a read, and commits the switch's list with lastUpdated = now, the reply carrying count = new length; every other outcome is a rejection with its error's status, 400 once the store has been read; the rejection carries the error thrown: MalformedBody for an undecodable body, MissingAction for a falsy action, and after the read exactly the error the action switch throws |
| `Webhook.KvStore.Get` | functions/api/webhook.js:43 | returns the stored document, changes nothing, counts one read |
| `Webhook.KvStore.Put` | functions/api/webhook.js:95 | the stored document becomes the given one, counts one write |
| `Webhook.OnRequestPost` | functions/api/webhook.js:2-114 | the handler's response, the number of reads and writes it makes, and the stored document afterwards are exactly those of `Expected`: unchanged store on every failure, exactly one write on success |
| `Webhook.EmptyStoreActsAsEmptyList` | functions/api/webhook.js:43 | with nothing stored, authorised update and delete are rejected with 400 and write nothing, and a valid add stores a one-element list and reports count 1 |
| `Webhook.SecondDeleteRejected` | functions/api/webhook.js:67-101 | two identical authorised deletes: the first commits a strictly shorter list, the second is rejected with DeleteTargetNotFound and writes nothing |

## Left out

- The GET endpoint in `functions/api/links.js`: a plain storage read with a hard-coded sample document.
- `functions/api/[...path].js`: a catch-all router that carries its own GET handler and a second, older copy of the webhook (`handleWebhook`, lines 86-170). That copy is not modelled. It differs from the modelled handler: it never checks that a secret is configured (line 92 compares against `Bearer ${expectedToken}` even when the secret is undefined); it has no `!action` guard, so a missing action reads the store and then fails in the default case (lines 143-144); deleting an unknown id is a silent no-op that still writes (lines 127-133); its success reply has no `lastUpdated` (lines 153-157); and its router turns errors that escape the handler into 500 (lines 37-45).
- `onRequestOptions` and all CORS header literals: static responses.
- JSON decoding of the body and JSON encoding of the document and replies: the body arrives as a decoded `Payload`, and a failed decode is `Unparseable`.
- Non-string JSON values: link fields, `action` and ids are strings, so JavaScript truthiness of numbers or booleans and `===` between an id string and an id number are not modelled; a truthy `link` that is not an object is modelled as absent, which gives the same errors.
- The texts of the error and success messages: each error is an `Error` kind and the success reply carries the action.
- Failures of the key-value store itself: a `get` or `put` that throws lands in the same catch block and becomes a 400 with nothing written; `KvStore` never fails.
- `console.error` logging.
- The format and uniqueness of `now` and `freshId`: they are opaque parameters.
- The lost-update race between concurrent requests: the model is one sequential request.
- Malformed stored documents (for example one without `links`), and fields of the stored document other than `links` and `lastUpdated`.
- Mutation.ReplaceSwapsWholeList: `LinksArg` holds only arrays of objects, so array elements that are not objects are not modelled. The source stores such an array unchecked and counts its elements. A `null` element then makes every later `delete` throw inside the filter at `l.id` and be rejected with 400 even when the id is present, and an `update` whose search reaches it before a match is rejected with 400 too. Numbers, strings and booleans read `l.id` as `undefined` without throwing, so they behave like links without an id: `findIndex` skips them and `filter` keeps them.
- `add` assigns the id into the payload's own link object before pushing it; that aliasing is not observable after the request and is not modelled.
