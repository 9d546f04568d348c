# rust-intercom-sdk, modelled in Dafny

This project models the core of rust-intercom-sdk, a small Rust client for the
Intercom REST API. It covers:

- **`get_all_contacts`**: the cursor-driven pagination loop. It asks for
  `contacts` with `per_page = "150"`, appends each page's items to an
  accumulator, and follows each page's `next.starting_after` token. At the
  first page without a next link, it copies that page's count, cursor and
  unknown keys into the result and stops.
- **`get_contacts` and `create_contact`**: the single-request calls.
- **The creation payload** (`ContactForCreation`). Serialising it leaves out
  every absent field.
- **`new_from_email`**, and the `Role` enum with its default and wire names.
- **`Contact`**: its passthrough of unknown keys into `extra`.
- **The list envelope** (`ListResponse<T>`, `Pages`, `NextObject`) and its
  derived defaults, the `Tags`/`TagData` defaults, and `CatchAll`.
- **The error type**: its two kinds, its display text, and the two `From`
  conversions.
- **The client configuration**: the constants `Client::new` fixes, the URL
  join, and the two headers `create_header` builds.

Modules, one per source file plus one for JSON:

| module | file | content |
|---|---|---|
| `Json` | json.dfy | JSON values as serde_json sees them; the `usize`/`i64` ranges; serde's rule for `Option` fields |
| `Errors` | errors.dfy | src/errors.rs |
| `Util` | util.dfy | src/util.rs |
| `ClientApi` | client.dfy | src/client.rs |
| `Contacts` | contacts.dfy | src/contacts.rs |

How the model handles what it does not execute:

- **The network.** The server is an input: a `Reply<T>` is either the decoded
  body or the reqwest error of a failed send or a failed decode. The
  pagination loop receives the sequence of replies, where `replies[i]`
  answers the i-th request. The loop also returns the requests it sent, so
  each request's URL, headers and query parameters are stated.
- **Header values.** The http crate parses each header value (section 5.5 of
  RFC 9110). That parse is a parameter, `accepts: string -> bool`.
- **`get` and `post`.** They return the request they would send, or the
  header error that stops them before anything is sent.

The endpoint already ends in a slash and `get`/`post` add another. So the
contacts URL is `https://api.intercom.io//contacts`, and the model keeps that
join exactly as written (`ClientApi.ContactsUrl`).

`GetAllContacts` is a `while` loop that mirrors the source's. The flag
`morePages`, the `params` map and the accumulator are updated in the same
order as the source updates them. Its contract ties the result to
`AllPagesOutcome`: the header error; otherwise, at the first reply that is a
failure or has no next page, that failure; otherwise the items of every
fetched page in order, with the last page's count, cursor and unknown keys.
Lemmas then state what that outcome guarantees.

## Model

| member | source | states |
|---|---|---|
| Json.DecodeUsize | src/util.rs:8-10 | a `usize` field decodes exactly from a JSON number in [0, 2^64), to that number |
| Json.DecodeI64 | src/util.rs:16 | an `i64` field decodes exactly from a JSON number in [-2^63, 2^63), to that number |
| Json.DecodeOptional | src/util.rs:11 | an `Option` field is None when its key is missing or null; otherwise it succeeds exactly when the value decodes, and holds that value |
| Json.EncodeOptional | src/util.rs:11 | a field that is not skipped encodes None as null, and Some(x) as x's encoding |
| Json.DecodeString | src/util.rs:17 | a `String` field decodes exactly from a JSON string, to that string |
| Json.DecodeBool | src/contacts.rs:75 | a `bool` field decodes exactly from a JSON boolean, to that boolean |
| Json.StructFields | src/util.rs:6-18 | a struct without a flattened field reads its fields from an object as it is, or from an array with exactly one element per field, each element under its field's name in declaration order; any other value is refused |
| Errors.Display | src/errors.rs:11-17 | `NotLoggedIn` displays as "Not logged in"; `HTTPError(s)` displays as "HTTP request to Intercom failed " followed by s |
| Errors.ParseDisplay | src/errors.rs:11-17 | any error read back from a text displays as that text |
| Errors.DisplayRoundTrip | src/errors.rs:13-16 | reading back the display text of any error gives that error |
| Errors.DisplayInjective | src/errors.rs:4-16 | two errors with the same display text are equal |
| Errors.FromTransport | src/errors.rs:20-24 | a reqwest error becomes an `HTTPError` carrying its message unchanged, so it displays as the prefix plus the message |
| Errors.FromInvalidHeaderValue | src/errors.rs:26-30 | a rejected header value becomes an `HTTPError` carrying its message unchanged, so it displays as the prefix plus the message |
| Util.DefaultPages | src/util.rs:6-12 | `Pages::default()` has page, per_page and total_pages 0 and no next |
| Util.DefaultListResponse | src/util.rs:36-43 | `ListResponse::default()` has count 0, no items, no unknown keys and default pages |
| Util.DefaultTagData | src/util.rs:20-26 | `TagData::default()` has three empty strings |
| Util.DefaultTags | src/util.rs:28-34 | `Tags::default()` has no tags, an empty url, count 0 and has_more false |
| Util.DecodeItems | src/util.rs:40 | an array decodes exactly when every item decodes; the items keep their wire order, one for one |
| Util.EncodeItems | src/util.rs:40 | the array holds each item's encoding, in order |
| Util.DecodeNext | src/util.rs:14-18 | `NextObject` decodes, from an object or a two-element array, exactly when page is an `i64` number and starting_after a string; the record holds those two values |
| Util.EncodeNext | src/util.rs:14-18 | `NextObject` encodes with exactly its two keys |
| Util.NextRoundTrip | src/util.rs:14-18 | decoding an encoded `NextObject` gives it back when its page fits `i64` |
| Util.DecodePages | src/util.rs:6-12 | `Pages` decodes, from an object or a four-element array, exactly when page, per_page and total_pages are `usize` numbers and next is missing, null or a valid `NextObject`; the record holds those values |
| Util.EncodePages | src/util.rs:6-12 | `Pages` encodes with exactly its four keys |
| Util.PagesFromArray | src/util.rs:6-12 | the array `[1, 150, 3, null]` decodes to pages 1, per_page 150, total_pages 3 and no next |
| Util.PagesFromShortArray | src/util.rs:6-12 | an array of three elements is not a `Pages` |
| Util.PagesRoundTrip | src/util.rs:6-18 | decoding an encoded `Pages` gives it back when its numbers fit their wire types |
| Util.DecodeListResponse | src/util.rs:36-43 | decodes exactly from an object holding total_count as a `usize`, pages as a valid `Pages` and data as an array whose every item decodes; the result holds that count, those pages and the items in wire order, and every other top-level key goes into `extra` with its value |
| Util.EncodeListResponse | src/util.rs:36-43 | the encoding has the named keys plus exactly the keys of `extra` |
| Util.ListExtraRoundTrip | src/util.rs:41-42 | decode then encode keeps the key set, and every unknown key keeps its value |
| Util.ListResponseRoundTrip | src/util.rs:36-43 | encode then decode gives the envelope back, given an item codec that round-trips, numbers in range, and no unknown key that shadows a named one |
| Util.DecodeCatchAll | src/util.rs:45-49 | any object decodes to `CatchAll`, and nothing else does; re-encoding gives the same object |
| Util.EncodeCatchAll | src/util.rs:45-49 | the encoding is an object with exactly the kept keys |
| Util.CatchAllRoundTrip | src/util.rs:45-49 | encode then decode gives the `CatchAll` back |
| ClientApi.HeaderError | src/client.rs:58-60 | the header failure is an `HTTPError` carrying the parse error's message |
| ClientApi.New | src/client.rs:15-22 | keeps the token unchanged; the endpoint is "https://api.intercom.io/" and the version "2.10" |
| ClientApi.Url | src/client.rs:28 | the URL is one character longer than the endpoint and the path together |
| ClientApi.UrlParts | src/client.rs:28 | the URL is the endpoint, one slash, then the path, and both parts can be read back from it |
| ClientApi.ContactsUrl | src/client.rs:19-28 | a new client's contacts URL is "https://api.intercom.io//contacts" |
| ClientApi.BearerToken | src/client.rs:58 | a token read back from an Authorization value gives that value again in the Bearer scheme |
| ClientApi.BearerRoundTrip | src/client.rs:58 | the token is recovered from "Bearer " + token |
| ClientApi.HeadersShape | src/client.rs:54-62 | the header map has exactly two entries: Authorization holds the token in the Bearer scheme, and Intercom-Version holds the version |
| ClientApi.CreateHeader | src/client.rs:54-63 | succeeds exactly when both values parse, and then returns the two-entry map; otherwise returns the header-value `HTTPError` |
| ClientApi.LineFeedTokenRejected | src/client.rs:58 | under a parse that refuses line feeds, a token holding one makes the headers fail |
| ClientApi.Get | src/client.rs:24-37 | headers come first: on failure, no request and the header error; otherwise a GET to the joined URL with the headers and the query |
| ClientApi.Post | src/client.rs:39-52 | as `Get`, but a POST with the JSON body |
| Contacts.DefaultRole | src/contacts.rs:143-152 | `Role::default()` is Visitor, whose wire name is "visitor" |
| Contacts.RoleName | src/contacts.rs:143-152 | each variant's wire name is one of "lead", "user" and "visitor" |
| Contacts.DecodeRole | src/contacts.rs:143-152 | a role decodes only from its wire name as a string, or from the map form holding that name alone mapped to null |
| Contacts.EncodeRole | src/contacts.rs:143-152 | a role encodes as a string that decodes back to it |
| Contacts.RoleRoundTrip | src/contacts.rs:143-152 | each role decodes from both wire forms of its name, and no two roles share one |
| Contacts.NewFromEmail | src/contacts.rs:80-95 | email and role are set as given; the other nine fields are absent |
| Contacts.CreationPayload | src/contacts.rs:54-78 | the payload uses only the eleven wire names, and no value is null |
| Contacts.PayloadPresence | src/contacts.rs:54-78 | each key is in the payload exactly when its field is present |
| Contacts.NewFromEmailPayload | src/contacts.rs:80-95 | the payload of `new_from_email` has exactly the keys role and email, holding the role's wire name and the email |
| Contacts.DecodeCreation | src/contacts.rs:54-78 | the payload decodes from an object, or an array of exactly eleven elements in field order, exactly when its fields decode |
| Contacts.DecodeCreationFields | src/contacts.rs:54-78 | decoding succeeds exactly when each of the eleven fields is missing, null or of its type; each field then holds its decoded value, None when missing or null |
| Contacts.EncodeStringMap | src/contacts.rs:77 | a string-to-string map is written as an object with the same keys, each value the JSON string of the map's value |
| Contacts.DecodeStringMap | src/contacts.rs:77 | a string-to-string map decodes exactly from an object whose every value is a string; it has the object's keys, each holding that string |
| Contacts.StringMapRoundTrip | src/contacts.rs:77 | a string-to-string map round-trips through a JSON object |
| Contacts.TextFieldsRoundTrip | src/contacts.rs:56-67 | role, external_id, email, phone, name and avatar decode from the payload as they were |
| Contacts.OtherFieldsRoundTrip | src/contacts.rs:68-77 | the `i64`, `bool` and map fields decode from the payload as they were, when the numbers fit `i64` |
| Contacts.CreationRoundTrip | src/contacts.rs:54-78 | leaving absent fields out loses nothing: decoding the payload gives the record back |
| Contacts.DecodeContact | src/contacts.rs:98-141 | decodes exactly from an object whose id and type are strings, whose role is a valid role and whose email is missing, null or a string; the record holds those values, and `extra` holds exactly the keys that are not field names, with their values |
| Contacts.EncodeContact | src/contacts.rs:98-141 | the encoding has the modelled fields plus exactly the keys of `extra` |
| Contacts.ContactPassthrough | src/contacts.rs:139-140 | a key that is not a field name survives decode then encode, with its value |
| Contacts.ContactRoundTrip | src/contacts.rs:98-141 | a contact whose `extra` holds no field name survives encode then decode |
| Contacts.PageOutcome | src/contacts.rs:10-13 | the header error; else the transport error with its message; else the decoded page |
| Contacts.GetContacts | src/contacts.rs:10-13 | returns the single-page outcome; sends one GET to contacts with no query parameters, or nothing when the headers fail |
| Contacts.CreateContact | src/contacts.rs:45-51 | sends one POST to contacts whose body is the creation payload, or nothing when the headers fail; returns the created contact or the transport error |
| Contacts.FirstStop | src/contacts.rs:21-38 | the loop's last request answers the first reply that is a failure or has no next page; every earlier reply had a next page |
| Contacts.QueryForShape | src/contacts.rs:17-33 | every request carries per_page "150"; the first has no starting_after; each later one carries the previous page's token verbatim |
| Contacts.QueryStep | src/contacts.rs:32-33 | after a page with a next link, starting_after is overwritten with its token and nothing else in the parameters changes |
| Contacts.RequestsUpToAt | src/contacts.rs:21-26 | the first n requests are n GETs to contacts with the headers, the j-th carrying the j-th query |
| Contacts.OutcomeOnFailure | src/contacts.rs:22-26 | a failed reply ends the loop with that reply's error, and the items gathered so far are dropped |
| Contacts.GetAllContacts | src/contacts.rs:15-43 | the loop returns the outcome described above; it sends nothing when the headers fail, and otherwise one request per reply up to and including the first stopping reply |
| Contacts.GatheredAppend | src/contacts.rs:31 | gathering the items of two runs of replies gives the first run's items followed by the second's |
| Contacts.GatheredLength | src/contacts.rs:31 | the number of gathered items is the sum of the pages' item counts |
| Contacts.GatheredSameItems | src/contacts.rs:31 | only the pages' items affect what is gathered |
| Contacts.GatheredSlice | src/contacts.rs:31 | reply j's items sit in the gathered items right after the items of the replies before it |
| Contacts.OutcomeData | src/contacts.rs:31-41 | a successful loop ends at a received page, and its items are those gathered up to that page |
| Contacts.PageItemsInPlace | src/contacts.rs:16-31 | on success, every fetched page was received, and its items appear unchanged and in order at its offset in the result: none dropped, none reordered |
| Contacts.CountMatchesItems | src/contacts.rs:179 | when the last page's count equals the number of items over the fetched pages, the result's count equals its number of items |
| Contacts.SinglePageAll | src/contacts.rs:16-38 | a first reply without a next page gives the same outcome as fetching that single page |
| Contacts.EarlierMetadataIgnored | src/contacts.rs:32-37 | replacing an earlier page by one with the same items and next link leaves the outcome unchanged |
| Contacts.ExampleRequests | src/contacts.rs:17-33 | for three pages linked by "abc" and "def", the loop makes three requests whose queries carry none, "abc", then "def" |
| Contacts.ExampleOutcome | src/contacts.rs:15-43 | for the same three pages, the result holds A to E in page order and the last page's count and cursor |

## Left out

- HTTP sending, async execution and reqwest's body decoding are outside the model. The server's replies are inputs, already decoded. The JSON decoders (`Util.DecodeListResponse`, `Contacts.DecodeContact`) are modelled on their own and are not wired into the loop.
- Query-string and JSON-body encoding are outside the model. Query parameters are a `map<string, string>`. The query of `get_contacts` (`&vec![()]`) is taken as the empty map; how reqwest's query encoder treats `()` elements is outside the model, so `Contacts.GetContacts` may record a request that the source refuses to build.
- The progress `println!` inside the loop has no effect on the result and is not modelled.
- The http crate's header-value parse is the parameter `accepts`. The text of its error is not part of this model: `REJECTED_HEADER_VALUE` carries a placeholder text.
- ClientApi.CreateHeader: when the Authorization value is rejected, the source never inserts Intercom-Version. The partial map is discarded, so the model states only the returned error.
- Header names are compared case-insensitively by the http crate; the model uses the two exact names.
- Contacts.GetAllContacts: requires that some reply is a failure or a page without a next link. A server that always sends a next link makes the source loop forever, and that case is not modelled. The loop is generic in the item type; the source instantiates it with `Contact`.
- Contacts.DecodeContact: decodes and checks only id, type, role and email. The other typed fields of `Contact` are not decoded, so objects that lack a required one (such as `created_at`, `tags` or `custom_attributes`) or hold one of the wrong type are accepted here but rejected by the source. The modelled record does not hold those fields either, and `Contacts.EncodeContact` does not write them: decode then encode drops `created_at`, `tags` and the other unmodelled fields, which the source keeps.
- `Tags` and `TagData` are modelled through their defaults only; they have no decoder here.
- Serde's alternate input forms are modelled where the modelled decoders meet them: the array form of `Pages`, `NextObject` and `ContactForCreation`, and the map form `{"lead": null}` of a `Role`. Structs with a flattened field (`ListResponse`, `Contact`, `CatchAll`) accept objects only, as serde does.
- JSON strings are compared as character sequences; escapes and the byte-level parse are outside the model.
- JSON numbers are integers; floating-point numbers are not modelled. A JSON object is a map, so duplicate keys cannot be expressed.
- `usize` is taken as 64 bits wide.
- `Errors.NotLoggedIn` is never produced by the modelled code. Formatter failures in `Display` are not modelled.
- src/lib.rs only declares modules and re-exports types; it is not part of this model. Neither are the integration tests, which need the network and credentials.
