/** Contacts (src/contacts.rs): the role enum, the sparse creation payload,
    the contact record with its passthrough of unknown keys, and the
    fetch operations, chief among them the cursor-driven loop that gathers
    every page of the contact list into one envelope. */
module Contacts {
  import opened Json
  import opened Errors
  import opened Util
  import opened ClientApi

  // =====================================================================
  // Role

  datatype Role = Lead | User | Visitor

  /** `#[default]` on `Visitor`. */
  function DefaultRole(): (r: Role)
    ensures r == Visitor && RoleName(r) == "visitor"
  {
    Visitor
  }

  /** The serde rename of each variant. */
  function RoleName(r: Role): (s: string)
    ensures (r == Lead <==> s == "lead") && (r == User <==> s == "user") && (r == Visitor <==> s == "visitor")
  {
    match r
    case Lead => "lead"
    case User => "user"
    case Visitor => "visitor"
  }

  /** Decoding a role: a wire name as a string, or the map form serde
      accepts for a unit variant, that wire name alone mapped to null. */
  function DecodeRole(v: Value): (r: Option<Role>)
    ensures r.Some? ==> v == String(RoleName(r.value)) || v == Object(map[RoleName(r.value) := Null])
  {
    if v == String("lead") || v == Object(map["lead" := Null]) then Some(Lead)
    else if v == String("user") || v == Object(map["user" := Null]) then Some(User)
    else if v == String("visitor") || v == Object(map["visitor" := Null]) then Some(Visitor)
    else None
  }

  /** Encoding a role: its wire name, which decodes back to it. */
  function EncodeRole(r: Role): (v: Value)
    ensures v.String? && DecodeRole(v) == Some(r)
  {
    String(RoleName(r))
  }

  /** Both wire forms of a role decode to it, and distinct roles have
      distinct names. */
  lemma RoleRoundTrip(r: Role)
    ensures DecodeRole(String(RoleName(r))) == Some(r)
    ensures DecodeRole(Object(map[RoleName(r) := Null])) == Some(r)
    ensures forall r' :: RoleName(r') == RoleName(r) ==> r' == r
  {
    forall r' | RoleName(r') == RoleName(r) ensures r' == r {
      assert DecodeRole(String(RoleName(r'))) == Some(r');
    }
    var user := Object(map["user" := Null]);
    assert "lead" !in user.fields && "lead" !in Object(map["visitor" := Null]).fields;
    assert "user" !in Object(map["visitor" := Null]).fields;
  }

  // =====================================================================
  // ContactForCreation: every field optional, absent ones not sent

  datatype ContactForCreation = ContactForCreation(
    role: Option<Role>,
    externalId: Option<string>,
    email: Option<string>,
    phone: Option<string>,
    name: Option<string>,
    avatar: Option<string>,
    signedUpAt: Option<int>,
    lastSeenAt: Option<int>,
    ownerId: Option<int>,
    unsubscribedFromEmails: Option<bool>,
    customAttributes: Option<map<string, string>>)

  /** The wire names of the creation payload's fields, in declaration order. */
  const CREATION_ORDER: seq<string> := [
    "role", "external_id", "email", "phone", "name", "avatar",
    "signed_up_at", "last_seen_at", "owner_id", "unsubscribed_from_emails", "custom_attributes"]

  const CREATION_KEYS: set<string> := {
    "role", "external_id", "email", "phone", "name", "avatar",
    "signed_up_at", "last_seen_at", "owner_id", "unsubscribed_from_emails", "custom_attributes"}

  /** `new_from_email`: email and role set, every other field absent. */
  function NewFromEmail(email: string, role: Role): (c: ContactForCreation)
    ensures c.email == Some(email) && c.role == Some(role)
    ensures c.externalId.None? && c.phone.None? && c.name.None? && c.avatar.None?
    ensures c.signedUpAt.None? && c.lastSeenAt.None? && c.ownerId.None?
    ensures c.unsubscribedFromEmails.None? && c.customAttributes.None?
  {
    ContactForCreation(Some(role), None, Some(email), None, None, None, None, None, None, None, None)
  }

  /** `HashMap<String, String>` is written as an object of strings. */
  function EncodeStringMap(m: map<string, string>): (v: Value)
    ensures v.Object? && v.fields.Keys == m.Keys
    ensures forall k :: k in m ==> v.fields[k] == String(m[k])
  {
    Object(map k | k in m :: String(m[k]))
  }

  /** `HashMap<String, String>` is read from an object whose every value
      is a string. */
  function DecodeStringMap(v: Value): (r: Option<map<string, string>>)
    ensures r.Some? <==> v.Object? && forall k :: k in v.fields ==> v.fields[k].String?
    ensures r.Some? ==> r.value.Keys == v.fields.Keys && forall k :: k in r.value ==> String(r.value[k]) == v.fields[k]
  {
    if v.Object? && forall k :: k in v.fields ==> v.fields[k].String?
    then Some(map k | k in v.fields :: v.fields[k].s)
    else None
  }

  /** The JSON value a present field is written as, by wire name. */
  function Lift<U>(o: Option<U>, encode: U -> Value): (r: Option<Value>)
    ensures r.Some? <==> o.Some?
  {
    match o
    case None => None
    case Some(u) => Some(encode(u))
  }

  /** The encoded value of the field with wire name `key`; None when the
      field is absent or no field has that name. */
  function FieldValue(c: ContactForCreation, key: string): Option<Value>
  {
    if key == "role" then Lift(c.role, EncodeRole)
    else if key == "external_id" then Lift(c.externalId, s => String(s))
    else if key == "email" then Lift(c.email, s => String(s))
    else if key == "phone" then Lift(c.phone, s => String(s))
    else if key == "name" then Lift(c.name, s => String(s))
    else if key == "avatar" then Lift(c.avatar, s => String(s))
    else if key == "signed_up_at" then Lift(c.signedUpAt, n => Number(n))
    else if key == "last_seen_at" then Lift(c.lastSeenAt, n => Number(n))
    else if key == "owner_id" then Lift(c.ownerId, n => Number(n))
    else if key == "unsubscribed_from_emails" then Lift(c.unsubscribedFromEmails, b => Bool(b))
    else if key == "custom_attributes" then Lift(c.customAttributes, EncodeStringMap)
    else None
  }

  /** The serialised payload: `skip_serializing_if = "Option::is_none"` on
      every field, so a key appears exactly when its field is present, and
      no key is ever null. */
  function CreationPayload(c: ContactForCreation): (m: map<string, Value>)
    ensures m.Keys <= CREATION_KEYS
    ensures forall k :: k in m ==> m[k] != Null
  {
    map k | k in CREATION_KEYS && FieldValue(c, k).Some? :: FieldValue(c, k).value
  }

  /** A key is in the payload exactly when its field is present. */
  lemma PayloadPresence(c: ContactForCreation)
    ensures var m := CreationPayload(c);
      ("role" in m <==> c.role.Some?) && ("external_id" in m <==> c.externalId.Some?) &&
      ("email" in m <==> c.email.Some?) && ("phone" in m <==> c.phone.Some?) &&
      ("name" in m <==> c.name.Some?) && ("avatar" in m <==> c.avatar.Some?)
    ensures var m := CreationPayload(c);
      ("signed_up_at" in m <==> c.signedUpAt.Some?) && ("last_seen_at" in m <==> c.lastSeenAt.Some?) &&
      ("owner_id" in m <==> c.ownerId.Some?) &&
      ("unsubscribed_from_emails" in m <==> c.unsubscribedFromEmails.Some?) &&
      ("custom_attributes" in m <==> c.customAttributes.Some?)
  {
  }

  /** The payload of `new_from_email` has exactly the keys role and email. */
  lemma NewFromEmailPayload(email: string, role: Role)
    ensures CreationPayload(NewFromEmail(email, role)).Keys == {"role", "email"}
    ensures CreationPayload(NewFromEmail(email, role))["email"] == String(email)
    ensures CreationPayload(NewFromEmail(email, role))["role"] == String(RoleName(role))
  {
    var m := CreationPayload(NewFromEmail(email, role));
    assert m == map["role" := String(RoleName(role)), "email" := String(email)];
  }

  /** The derived Deserialize of the payload: an object or an array of
      eleven elements, each field read with the Option rule (missing or
      null is None); in the object form unknown keys are ignored. */
  function DecodeCreation(v: Value): (r: Option<ContactForCreation>)
    ensures r.Some? <==> StructFields(v, CREATION_ORDER).Some? && DecodeCreationFields(StructFields(v, CREATION_ORDER).value).Some?
    ensures r.Some? ==> r == DecodeCreationFields(StructFields(v, CREATION_ORDER).value)
  {
    var f := StructFields(v, CREATION_ORDER);
    if f.None? then None else DecodeCreationFields(f.value)
  }

  /** The payload's fields read from the wire fields `f`: the record holds
      each field's decoded value, and decoding fails as soon as one field
      holds a value of the wrong type. */
  function DecodeCreationFields(f: map<string, Value>): (r: Option<ContactForCreation>)
    ensures r.Some? <==>
      DecodeOptional(f, "role", DecodeRole).Some? && DecodeOptional(f, "external_id", DecodeString).Some? &&
      DecodeOptional(f, "email", DecodeString).Some? && DecodeOptional(f, "phone", DecodeString).Some? &&
      DecodeOptional(f, "name", DecodeString).Some? && DecodeOptional(f, "avatar", DecodeString).Some? &&
      DecodeOptional(f, "signed_up_at", DecodeI64).Some? && DecodeOptional(f, "last_seen_at", DecodeI64).Some? &&
      DecodeOptional(f, "owner_id", DecodeI64).Some? &&
      DecodeOptional(f, "unsubscribed_from_emails", DecodeBool).Some? &&
      DecodeOptional(f, "custom_attributes", DecodeStringMap).Some?
    ensures r.Some? ==>
      Some(r.value.role) == DecodeOptional(f, "role", DecodeRole) &&
      Some(r.value.externalId) == DecodeOptional(f, "external_id", DecodeString) &&
      Some(r.value.email) == DecodeOptional(f, "email", DecodeString) &&
      Some(r.value.phone) == DecodeOptional(f, "phone", DecodeString) &&
      Some(r.value.name) == DecodeOptional(f, "name", DecodeString) &&
      Some(r.value.avatar) == DecodeOptional(f, "avatar", DecodeString)
    ensures r.Some? ==>
      Some(r.value.signedUpAt) == DecodeOptional(f, "signed_up_at", DecodeI64) &&
      Some(r.value.lastSeenAt) == DecodeOptional(f, "last_seen_at", DecodeI64) &&
      Some(r.value.ownerId) == DecodeOptional(f, "owner_id", DecodeI64) &&
      Some(r.value.unsubscribedFromEmails) == DecodeOptional(f, "unsubscribed_from_emails", DecodeBool) &&
      Some(r.value.customAttributes) == DecodeOptional(f, "custom_attributes", DecodeStringMap)
  {
    var role := DecodeOptional(f, "role", DecodeRole);
    var externalId := DecodeOptional(f, "external_id", DecodeString);
    var email := DecodeOptional(f, "email", DecodeString);
    var phone := DecodeOptional(f, "phone", DecodeString);
    var name := DecodeOptional(f, "name", DecodeString);
    var avatar := DecodeOptional(f, "avatar", DecodeString);
    var signedUpAt := DecodeOptional(f, "signed_up_at", DecodeI64);
    var lastSeenAt := DecodeOptional(f, "last_seen_at", DecodeI64);
    var ownerId := DecodeOptional(f, "owner_id", DecodeI64);
    var unsubscribed := DecodeOptional(f, "unsubscribed_from_emails", DecodeBool);
    var custom := DecodeOptional(f, "custom_attributes", DecodeStringMap);
    if role.None? || externalId.None? || email.None? || phone.None? || name.None? || avatar.None? ||
       signedUpAt.None? || lastSeenAt.None? || ownerId.None? || unsubscribed.None? || custom.None?
    then None
    else Some(ContactForCreation(role.value, externalId.value, email.value, phone.value, name.value,
                                 avatar.value, signedUpAt.value, lastSeenAt.value, ownerId.value,
                                 unsubscribed.value, custom.value))
  }

  /** The `i64` fields hold values their wire type can carry. */
  predicate CreationInRange(c: ContactForCreation)
  {
    (c.signedUpAt.Some? ==> IsI64(c.signedUpAt.value)) &&
    (c.lastSeenAt.Some? ==> IsI64(c.lastSeenAt.value)) &&
    (c.ownerId.Some? ==> IsI64(c.ownerId.value))
  }

  lemma EntryLookup<U>(m: map<string, Value>, key: string, o: Option<U>, encode: U -> Value, decode: Value -> Option<U>)
    requires key in m ==> o.Some? && m[key] == encode(o.value)
    requires key !in m ==> o.None?
    requires o.Some? ==> decode(encode(o.value)) == Some(o.value) && encode(o.value) != Null
    ensures DecodeOptional(m, key, decode) == Some(o)
  {
  }

  lemma StringMapRoundTrip(m: map<string, string>)
    ensures DecodeStringMap(EncodeStringMap(m)) == Some(m)
  {
    var fields := map k | k in m :: String(m[k]);
    assert EncodeStringMap(m) == Object(fields);
    assert forall k :: k in fields ==> fields[k].String?;
    var back := map k | k in fields :: fields[k].s;
    assert DecodeStringMap(Object(fields)) == Some(back);
    assert back.Keys == m.Keys;
    assert forall k :: k in m ==> back[k] == m[k];
    assert back == m;
  }

  /** The text-valued fields (and the role) survive the payload. */
  lemma TextFieldsRoundTrip(c: ContactForCreation)
    ensures var m := CreationPayload(c);
      DecodeOptional(m, "role", DecodeRole) == Some(c.role) &&
      DecodeOptional(m, "external_id", DecodeString) == Some(c.externalId) &&
      DecodeOptional(m, "email", DecodeString) == Some(c.email) &&
      DecodeOptional(m, "phone", DecodeString) == Some(c.phone) &&
      DecodeOptional(m, "name", DecodeString) == Some(c.name) &&
      DecodeOptional(m, "avatar", DecodeString) == Some(c.avatar)
  {
    var m := CreationPayload(c);
    EntryLookup(m, "role", c.role, EncodeRole, DecodeRole);
    EntryLookup(m, "external_id", c.externalId, s => String(s), DecodeString);
    EntryLookup(m, "email", c.email, s => String(s), DecodeString);
    EntryLookup(m, "phone", c.phone, s => String(s), DecodeString);
    EntryLookup(m, "name", c.name, s => String(s), DecodeString);
    EntryLookup(m, "avatar", c.avatar, s => String(s), DecodeString);
  }

  /** The numeric, boolean and map fields survive the payload, provided the
      numbers fit `i64`. */
  lemma OtherFieldsRoundTrip(c: ContactForCreation)
    requires CreationInRange(c)
    ensures var m := CreationPayload(c);
      DecodeOptional(m, "signed_up_at", DecodeI64) == Some(c.signedUpAt) &&
      DecodeOptional(m, "last_seen_at", DecodeI64) == Some(c.lastSeenAt) &&
      DecodeOptional(m, "owner_id", DecodeI64) == Some(c.ownerId) &&
      DecodeOptional(m, "unsubscribed_from_emails", DecodeBool) == Some(c.unsubscribedFromEmails) &&
      DecodeOptional(m, "custom_attributes", DecodeStringMap) == Some(c.customAttributes)
  {
    var m := CreationPayload(c);
    EntryLookup(m, "signed_up_at", c.signedUpAt, n => Number(n), DecodeI64);
    EntryLookup(m, "last_seen_at", c.lastSeenAt, n => Number(n), DecodeI64);
    EntryLookup(m, "owner_id", c.ownerId, n => Number(n), DecodeI64);
    EntryLookup(m, "unsubscribed_from_emails", c.unsubscribedFromEmails, b => Bool(b), DecodeBool);
    if c.customAttributes.Some? {
      StringMapRoundTrip(c.customAttributes.value);
    }
    EntryLookup(m, "custom_attributes", c.customAttributes, EncodeStringMap, DecodeStringMap);
  }

  /** Omitting absent fields loses nothing: decoding the payload gives the
      record back. */
  lemma CreationRoundTrip(c: ContactForCreation)
    requires CreationInRange(c)
    ensures DecodeCreation(Object(CreationPayload(c))) == Some(c)
  {
    TextFieldsRoundTrip(c);
    OtherFieldsRoundTrip(c);
  }

  // =====================================================================
  // Contact: a few typed fields, every unnamed key kept in `extra`

  /** A contact with four of its typed fields; `extra` holds every key that
      is not one of the struct's field names. */
  datatype Contact = Contact(id: string, contactType: string, role: Role, email: Option<string>, extra: map<string, Value>)

  /** The wire names of all of the struct's typed fields (`contact_type` is
      renamed `type`). */
  const CONTACT_KEYS: set<string> := {
    "id", "type", "role", "email", "external_id", "phone", "name", "owner_id",
    "has_hard_bounced", "marked_email_as_spam", "unsubscribed_from_emails",
    "created_at", "updated_at", "signed_up_at", "last_seen_at", "last_replied_at",
    "last_contacted_at", "last_email_opened_at", "last_email_clicked_at",
    "language_override", "browser", "browser_version", "browser_language", "os",
    "android_app_name", "android_app_version", "android_device", "android_os_version",
    "android_sdk_version", "android_last_seen_at", "ios_app_name", "ios_app_version",
    "ios_device", "ios_os_version", "ios_sdk_version", "ios_last_seen_at",
    "tags", "custom_attributes"}

  /** Decoding a contact: `id`, `type` and `role` are required, `email` is
      optional, and the flattened `extra` receives every other key. */
  function DecodeContact(v: Value): (r: Option<Contact>)
    ensures r.Some? <==> (v.Object? && {"id", "type", "role"} <= v.fields.Keys &&
      DecodeString(v.fields["id"]).Some? && DecodeString(v.fields["type"]).Some? &&
      DecodeRole(v.fields["role"]).Some? && DecodeOptional(v.fields, "email", DecodeString).Some?)
    ensures r.Some? ==> (String(r.value.id) == v.fields["id"] && String(r.value.contactType) == v.fields["type"] &&
      Some(r.value.role) == DecodeRole(v.fields["role"]) &&
      Some(r.value.email) == DecodeOptional(v.fields, "email", DecodeString))
    ensures r.Some? ==> r.value.extra.Keys == v.fields.Keys - CONTACT_KEYS
    ensures r.Some? ==> forall k :: k in r.value.extra ==> r.value.extra[k] == v.fields[k]
  {
    if !v.Object? || "id" !in v.fields || "type" !in v.fields || "role" !in v.fields then None
    else
      var id := DecodeString(v.fields["id"]);
      var contactType := DecodeString(v.fields["type"]);
      var role := DecodeRole(v.fields["role"]);
      var email := DecodeOptional(v.fields, "email", DecodeString);
      if id.None? || contactType.None? || role.None? || email.None? then None
      else Some(Contact(id.value, contactType.value, role.value, email.value, v.fields - CONTACT_KEYS))
  }

  /** Encoding a contact: its typed fields (email null when absent), with
      `extra` flattened beside them. */
  function EncodeContact(c: Contact): (v: Value)
    ensures v.Object? && v.fields.Keys == c.extra.Keys + {"id", "type", "role", "email"}
  {
    Object(c.extra + map["id" := String(c.id), "type" := String(c.contactType),
                         "role" := EncodeRole(c.role), "email" := EncodeOptional(c.email, s => String(s))])
  }

  /** Passthrough: a key the struct does not name survives decode-then-
      encode with its value unchanged. */
  lemma ContactPassthrough(v: Value)
    requires DecodeContact(v).Some?
    ensures forall k :: k in v.fields && k !in CONTACT_KEYS ==>
      k in EncodeContact(DecodeContact(v).value).fields &&
      EncodeContact(DecodeContact(v).value).fields[k] == v.fields[k]
  {
    var c := DecodeContact(v).value;
    var out := EncodeContact(c).fields;
    forall k | k in v.fields && k !in CONTACT_KEYS
      ensures k in out && out[k] == v.fields[k]
    {
      assert k in c.extra;
      assert k != "id" && k != "type" && k != "role" && k != "email";
    }
  }

  /** And the other way: a contact whose `extra` holds no typed key comes
      back whole. */
  lemma ContactRoundTrip(c: Contact)
    requires c.extra.Keys !! CONTACT_KEYS
    ensures DecodeContact(EncodeContact(c)) == Some(c)
  {
    var f := EncodeContact(c).fields;
    RoleRoundTrip(c.role);
    assert DecodeOptional(f, "email", DecodeString) == Some(c.email);
    assert f - CONTACT_KEYS == c.extra;
  }

  // =====================================================================
  // Fetching

  /** The page-size hint the loop sends with every request. */
  const PER_PAGE: string := "150"

  /** What a single fetched page gives the caller: the header error, the
      transport error, or the page as decoded. */
  function PageOutcome<T>(c: Client, accepts: string -> bool, reply: Reply<ListResponse<T>>): (r: Result<ListResponse<T>>)
    ensures !HeadersAccepted(c, accepts) ==> r == Err(HeaderError())
    ensures HeadersAccepted(c, accepts) && reply.Failed? ==> r.Err? && r.error.HTTPError? && r.error.detail == reply.cause.message
    ensures HeadersAccepted(c, accepts) && reply.Received? ==> r == Ok(reply.body)
  {
    if !HeadersAccepted(c, accepts) then Err(HeaderError())
    else match reply
      case Failed(e) => Err(FromTransport(e))
      case Received(p) => Ok(p)
  }

  /** `get_contacts`: one GET to `contacts` with no query parameters; the
      header check comes first, and its failure sends nothing. */
  method GetContacts(c: Client, accepts: string -> bool, reply: Reply<ListResponse<Contact>>)
    returns (r: Result<ListResponse<Contact>>, sent: seq<Request>)
    ensures r == PageOutcome(c, accepts, reply)
    ensures HeadersAccepted(c, accepts) ==> sent == [GetRequest(Url(c, "contacts"), Headers(c), map[])]
    ensures !HeadersAccepted(c, accepts) ==> sent == []
  {
    sent := [];
    var request := Get(c, accepts, "contacts", map[]);
    if request.Err? {
      return Err(request.error), sent;
    }
    sent := sent + [request.value];
    match reply
    case Failed(e) =>
      r := Err(FromTransport(e));
    case Received(page) =>
      r := Ok(page);
  }

  /** `create_contact`: one POST to `contacts` whose body is the payload
      with absent fields left out; the header check comes first. */
  method CreateContact(c: Client, accepts: string -> bool, contact: ContactForCreation, reply: Reply<Contact>)
    returns (r: Result<Contact>, sent: seq<Request>)
    ensures !HeadersAccepted(c, accepts) ==> r == Err(HeaderError()) && sent == []
    ensures HeadersAccepted(c, accepts) ==>
      sent == [PostRequest(Url(c, "contacts"), Headers(c), Object(CreationPayload(contact)))]
    ensures HeadersAccepted(c, accepts) && reply.Received? ==> r == Ok(reply.body)
    ensures HeadersAccepted(c, accepts) && reply.Failed? ==> r == Err(FromTransport(reply.cause))
  {
    sent := [];
    var request := Post(c, accepts, "contacts", Object(CreationPayload(contact)));
    if request.Err? {
      return Err(request.error), sent;
    }
    sent := sent + [request.value];
    match reply
    case Failed(e) =>
      r := Err(FromTransport(e));
    case Received(created) =>
      r := Ok(created);
  }

  // ---------------------------------------------------------------------
  // The pagination loop, `get_all_contacts`
  //
  // The server is given as the sequence of its replies: replies[i] answers
  // the i-th request. The loop ends at the first reply that is a failure or
  // a page without a next link; `Stops` says that such a reply exists.

  /** The reply is a page that points to a following page. */
  predicate HasNext<T>(reply: Reply<ListResponse<T>>)
  {
    reply.Received? && reply.body.pages.next.Some?
  }

  predicate Stops<T>(replies: seq<Reply<ListResponse<T>>>)
  {
    exists i :: 0 <= i < |replies| && !HasNext(replies[i])
  }

  lemma StopsTail<T>(replies: seq<Reply<ListResponse<T>>>)
    requires Stops(replies) && HasNext(replies[0])
    ensures Stops(replies[1..])
  {
    var i :| 0 <= i < |replies| && !HasNext(replies[i]);
    assert replies[1..][i - 1] == replies[i];
  }

  /** The index of the last request the loop makes. */
  function FirstStop<T>(replies: seq<Reply<ListResponse<T>>>): (k: nat)
    requires Stops(replies)
    ensures k < |replies| && !HasNext(replies[k])
    ensures forall i :: 0 <= i < k ==> HasNext(replies[i])
    decreases |replies|
  {
    if !HasNext(replies[0]) then 0
    else
      StopsTail(replies);
      1 + FirstStop(replies[1..])
  }

  /** The first stopping reply is the only one with no stopping reply
      before it. */
  lemma FirstStopAt<T>(replies: seq<Reply<ListResponse<T>>>, i: nat)
    requires i < |replies| && !HasNext(replies[i])
    requires forall j :: 0 <= j < i ==> HasNext(replies[j])
    ensures Stops(replies) && FirstStop(replies) == i
  {
  }

  /** The items a reply contributes: a page's data, nothing for a failure. */
  function PageData<T>(reply: Reply<ListResponse<T>>): seq<T>
  {
    if reply.Received? then reply.body.data else []
  }

  /** The items of the replies, page after page. */
  function Gathered<T>(replies: seq<Reply<ListResponse<T>>>): seq<T>
  {
    if |replies| == 0 then []
    else Gathered(replies[..|replies| - 1]) + PageData(replies[|replies| - 1])
  }

  lemma GatheredSnoc<T>(replies: seq<Reply<ListResponse<T>>>, i: nat)
    requires i < |replies|
    ensures Gathered(replies[..i + 1]) == Gathered(replies[..i]) + PageData(replies[i])
  {
    assert replies[..i + 1][..i] == replies[..i];
  }

  /** The number of items over the replies. */
  function ItemCount<T>(replies: seq<Reply<ListResponse<T>>>): nat
  {
    if |replies| == 0 then 0
    else ItemCount(replies[..|replies| - 1]) + |PageData(replies[|replies| - 1])|
  }

  /** The query parameters of the i-th request: the page-size hint, and,
      after a page with a next link, that link's token verbatim. */
  function QueryFor<T>(replies: seq<Reply<ListResponse<T>>>, i: nat): map<string, string>
    requires i <= |replies|
    requires 0 < i ==> HasNext(replies[i - 1])
  {
    if i == 0 then map["per_page" := PER_PAGE]
    else map["per_page" := PER_PAGE, "starting_after" := replies[i - 1].body.pages.next.value.startingAfter]
  }

  /** Every request carries `per_page = "150"`; the first has no
      `starting_after`; each later one carries the previous page's token. */
  lemma QueryForShape<T>(replies: seq<Reply<ListResponse<T>>>, i: nat)
    requires i <= |replies|
    requires 0 < i ==> HasNext(replies[i - 1])
    ensures QueryFor(replies, i).Keys == if i == 0 then {"per_page"} else {"per_page", "starting_after"}
    ensures QueryFor(replies, i)["per_page"] == "150"
    ensures 0 < i ==> QueryFor(replies, i)["starting_after"] == replies[i - 1].body.pages.next.value.startingAfter
  {
  }

  /** After a page with a next link, `starting_after` is overwritten with
      its token and nothing else in the parameters changes. */
  lemma QueryStep<T>(replies: seq<Reply<ListResponse<T>>>, i: nat)
    requires i < |replies| && HasNext(replies[i])
    requires 0 < i ==> HasNext(replies[i - 1])
    ensures QueryFor(replies, i)["starting_after" := replies[i].body.pages.next.value.startingAfter] == QueryFor(replies, i + 1)
  {
  }

  /** What `get_all_contacts` returns: the header error; else, at the first
      stopping reply, its transport error, or an envelope holding every
      fetched page's items in order and that last page's count, cursor and
      unknown keys. */
  function AllPagesOutcome<T>(c: Client, accepts: string -> bool, replies: seq<Reply<ListResponse<T>>>): Result<ListResponse<T>>
    requires Stops(replies)
  {
    if !HeadersAccepted(c, accepts) then Err(HeaderError())
    else
      var k := FirstStop(replies);
      match replies[k]
      case Failed(e) => Err(FromTransport(e))
      case Received(last) => Ok(ListResponse(last.totalCount, last.pages, Gathered(replies[..k + 1]), last.extra))
  }

  /** The first `n` requests of the loop, in order. */
  function RequestsUpTo<T>(c: Client, replies: seq<Reply<ListResponse<T>>>, n: nat): seq<Request>
    requires n <= |replies|
    requires forall j :: 0 <= j < n - 1 ==> HasNext(replies[j])
  {
    if n == 0 then []
    else RequestsUpTo(c, replies, n - 1) + [GetRequest(Url(c, "contacts"), Headers(c), QueryFor(replies, n - 1))]
  }

  lemma {:induction false} RequestsUpToAt<T>(c: Client, replies: seq<Reply<ListResponse<T>>>, n: nat)
    requires n <= |replies|
    requires forall j :: 0 <= j < n - 1 ==> HasNext(replies[j])
    ensures |RequestsUpTo(c, replies, n)| == n
    ensures forall j :: 0 <= j < n ==>
      RequestsUpTo(c, replies, n)[j] == GetRequest(Url(c, "contacts"), Headers(c), QueryFor(replies, j))
  {
    if n > 0 {
      RequestsUpToAt(c, replies, n - 1);
    }
  }

  /** The outcome when the reply to request `i` is a failure and every
      earlier reply pointed onward. */
  lemma OutcomeOnFailure<T>(c: Client, accepts: string -> bool, replies: seq<Reply<ListResponse<T>>>, i: nat)
    requires HeadersAccepted(c, accepts)
    requires i < |replies| && replies[i].Failed?
    requires forall j :: 0 <= j < i ==> HasNext(replies[j])
    ensures Stops(replies) && FirstStop(replies) == i
    ensures AllPagesOutcome(c, accepts, replies) == Err(FromTransport(replies[i].cause))
  {
    FirstStopAt(replies, i);
  }

  lemma OutcomeOnHeaderFailure<T>(c: Client, accepts: string -> bool, replies: seq<Reply<ListResponse<T>>>)
    requires Stops(replies) && !HeadersAccepted(c, accepts)
    ensures AllPagesOutcome(c, accepts, replies) == Err(HeaderError())
  {
  }

  lemma OutcomeOnLast<T>(c: Client, accepts: string -> bool, replies: seq<Reply<ListResponse<T>>>)
    requires Stops(replies) && HeadersAccepted(c, accepts)
    requires replies[FirstStop(replies)].Received?
    ensures var k := FirstStop(replies); var last := replies[k].body;
      AllPagesOutcome(c, accepts, replies) == Ok(ListResponse(last.totalCount, last.pages, Gathered(replies[..k + 1]), last.extra))
  {
  }

  /** `get_all_contacts`. Each round builds the GET (headers first), takes
      the server's reply, appends the page's items, and either records the
      next link's token as `starting_after` or copies the last page's
      count, cursor and unknown keys and stops. Any error returns at once,
      dropping the items gathered so far. */
  method GetAllContacts<T>(c: Client, accepts: string -> bool, replies: seq<Reply<ListResponse<T>>>)
    returns (r: Result<ListResponse<T>>, sent: seq<Request>)
    requires Stops(replies)
    ensures r == AllPagesOutcome(c, accepts, replies)
    ensures !HeadersAccepted(c, accepts) ==> sent == []
    ensures HeadersAccepted(c, accepts) ==> sent == RequestsUpTo(c, replies, FirstStop(replies) + 1)
  {
    var allContacts: ListResponse<T> := DefaultListResponse();
    var params: map<string, string> := map[];
    params := params["per_page" := PER_PAGE];
    var morePages := true;
    var i := 0;
    sent := [];
    ghost var k := FirstStop(replies);
    while morePages
      invariant i <= k + 1
      invariant morePages <==> i <= k
      invariant 0 < i ==> HeadersAccepted(c, accepts)
      invariant sent == RequestsUpTo(c, replies, i)
      invariant morePages ==> params == QueryFor(replies, i)
      invariant allContacts.data == Gathered(replies[..i])
      invariant !morePages ==> (replies[k].Received? && allContacts.totalCount == replies[k].body.totalCount &&
        allContacts.pages == replies[k].body.pages && allContacts.extra == replies[k].body.extra)
      decreases k + 1 - i
    {
      var request := Get(c, accepts, "contacts", params);
      if request.Err? {
        OutcomeOnHeaderFailure(c, accepts, replies);
        return Err(request.error), sent;
      }
      sent := sent + [request.value];
      var reply := replies[i];
      if reply.Failed? {
        OutcomeOnFailure(c, accepts, replies, i);
        return Err(FromTransport(reply.cause)), sent;
      }
      var res := reply.body;
      GatheredSnoc(replies, i);
      allContacts := allContacts.(data := allContacts.data + res.data);
      if res.pages.next.Some? {
        QueryStep(replies, i);
        params := params["starting_after" := res.pages.next.value.startingAfter];
      } else {
        allContacts := allContacts.(pages := res.pages, totalCount := res.totalCount, extra := res.extra);
        morePages := false;
      }
      i := i + 1;
    }
    OutcomeOnLast(c, accepts, replies);
    r := Ok(allContacts);
  }

  // ---------------------------------------------------------------------
  // What the loop's outcome guarantees

  /** Gathering distributes over concatenation of reply sequences. */
  lemma {:induction false} GatheredAppend<T>(a: seq<Reply<ListResponse<T>>>, b: seq<Reply<ListResponse<T>>>)
    ensures Gathered(a + b) == Gathered(a) + Gathered(b)
    decreases |b|
  {
    if |b| == 0 {
      assert a + b == a;
    } else {
      var front := b[..|b| - 1];
      assert (a + b)[..|a + b| - 1] == a + front;
      assert (a + b)[|a + b| - 1] == b[|b| - 1];
      GatheredAppend(a, front);
    }
  }

  /** The gathered items number exactly the items of the pages. */
  lemma {:induction false} GatheredLength<T>(replies: seq<Reply<ListResponse<T>>>)
    ensures |Gathered(replies)| == ItemCount(replies)
  {
    if |replies| > 0 {
      GatheredLength(replies[..|replies| - 1]);
    }
  }

  /** Gathering sees only the pages' items. */
  lemma {:induction false} GatheredSameItems<T>(a: seq<Reply<ListResponse<T>>>, b: seq<Reply<ListResponse<T>>>)
    requires |a| == |b|
    requires forall i :: 0 <= i < |a| ==> PageData(a[i]) == PageData(b[i])
    ensures Gathered(a) == Gathered(b)
  {
    if |a| > 0 {
      GatheredSameItems(a[..|a| - 1], b[..|b| - 1]);
    }
  }

  /** Within the items gathered from the first n replies, those of reply
      j < n start right after the items of the replies before it. */
  lemma GatheredSlice<T>(replies: seq<Reply<ListResponse<T>>>, j: nat, n: nat)
    requires j < n <= |replies|
    ensures ItemCount(replies[..j]) + |PageData(replies[j])| <= |Gathered(replies[..n])|
    ensures Gathered(replies[..n])[ItemCount(replies[..j])..ItemCount(replies[..j]) + |PageData(replies[j])|]
      == PageData(replies[j])
  {
    var d := PageData(replies[j]);
    var before, here, after := replies[..j], [replies[j]], replies[j + 1..n];
    assert replies[..n] == (before + here) + after;
    GatheredAppend(before + here, after);
    GatheredAppend(before, here);
    assert here[..0] == [];
    assert Gathered(here) == d;
    GatheredLength(before);
    var g := Gathered(before) + d + Gathered(after);
    assert g[|Gathered(before)|..|Gathered(before)| + |d|] == d;
  }

  /** A successful outcome ends at a received page and holds the items
      gathered up to it. */
  lemma OutcomeData<T>(c: Client, accepts: string -> bool, replies: seq<Reply<ListResponse<T>>>)
    requires Stops(replies) && AllPagesOutcome(c, accepts, replies).Ok?
    ensures replies[FirstStop(replies)].Received?
    ensures AllPagesOutcome(c, accepts, replies).value.data == Gathered(replies[..FirstStop(replies) + 1])
  {
  }

  /** On success every fetched page was received, and page j's items sit,
      unchanged and in order, right after the items of pages 0..j-1: none
      is dropped, none reordered. */
  lemma PageItemsInPlace<T>(c: Client, accepts: string -> bool, replies: seq<Reply<ListResponse<T>>>, j: nat)
    requires Stops(replies) && AllPagesOutcome(c, accepts, replies).Ok?
    requires j <= FirstStop(replies)
    ensures replies[j].Received?
    ensures ItemCount(replies[..j]) + |replies[j].body.data| <= |AllPagesOutcome(c, accepts, replies).value.data|
    ensures AllPagesOutcome(c, accepts, replies).value.data[ItemCount(replies[..j])..ItemCount(replies[..j]) + |replies[j].body.data|]
      == replies[j].body.data
  {
    var k := FirstStop(replies);
    assert replies[j].Received?;
    OutcomeData(c, accepts, replies);
    GatheredSlice(replies, j, k + 1);
  }

  /** When the last page's count equals the number of items over all the
      fetched pages, the result's count equals its number of items. */
  lemma CountMatchesItems<T>(c: Client, accepts: string -> bool, replies: seq<Reply<ListResponse<T>>>)
    requires Stops(replies) && AllPagesOutcome(c, accepts, replies).Ok?
    requires replies[FirstStop(replies)].Received?
    requires replies[FirstStop(replies)].body.totalCount == ItemCount(replies[..FirstStop(replies) + 1])
    ensures AllPagesOutcome(c, accepts, replies).value.totalCount == |AllPagesOutcome(c, accepts, replies).value.data|
  {
    GatheredLength(replies[..FirstStop(replies) + 1]);
  }

  /** A first page without a next link: one request, and the result is
      what the single-page fetch gives for that page. */
  lemma SinglePageAll<T>(c: Client, accepts: string -> bool, replies: seq<Reply<ListResponse<T>>>)
    requires |replies| > 0 && !HasNext(replies[0])
    ensures Stops(replies) && FirstStop(replies) == 0
    ensures AllPagesOutcome(c, accepts, replies) == PageOutcome(c, accepts, replies[0])
  {
    FirstStopAt(replies, 0);
    GatheredSnoc(replies, 0);
    assert replies[..0] == [];
    if replies[0].Received? {
      var last := replies[0].body;
      assert Gathered(replies[..1]) == last.data;
      assert ListResponse(last.totalCount, last.pages, last.data, last.extra) == last;
    }
  }

  /** Metadata of pages before the last never reaches the result: replacing
      an earlier page by one with the same items and next link changes
      nothing. */
  lemma EarlierMetadataIgnored<T>(c: Client, accepts: string -> bool, replies: seq<Reply<ListResponse<T>>>,
                                  j: nat, page: ListResponse<T>)
    requires Stops(replies) && j < FirstStop(replies)
    requires page.data == replies[j].body.data && page.pages.next == replies[j].body.pages.next
    ensures Stops(replies[j := Received(page)])
    ensures AllPagesOutcome(c, accepts, replies[j := Received(page)]) == AllPagesOutcome(c, accepts, replies)
  {
    var k := FirstStop(replies);
    var other := replies[j := Received(page)];
    forall i | 0 <= i < |replies|
      ensures HasNext(other[i]) == HasNext(replies[i]) && PageData(other[i]) == PageData(replies[i])
    {
    }
    FirstStopAt(other, k);
    assert other[k] == replies[k];
    GatheredSameItems(other[..k + 1], replies[..k + 1]);
  }

  /** Three pages, [A, B] then [C, D] then [E], linked by the tokens "abc"
      and "def"; the last page reports 5 items. */
  function ExampleReplies(): seq<Reply<ListResponse<string>>>
  {
    [Received(ListResponse(5, Pages(1, 2, 3, Some(NextObject(2, "abc"))), ["A", "B"], map[])),
     Received(ListResponse(5, Pages(2, 2, 3, Some(NextObject(3, "def"))), ["C", "D"], map[])),
     Received(ListResponse(5, Pages(3, 2, 3, None), ["E"], map[]))]
  }

  /** The example makes three requests, the second and third carrying the
      tokens of the pages before them. */
  lemma ExampleRequests()
    ensures Stops(ExampleReplies()) && FirstStop(ExampleReplies()) == 2
    ensures QueryFor(ExampleReplies(), 0) == map["per_page" := "150"]
    ensures QueryFor(ExampleReplies(), 1) == map["per_page" := "150", "starting_after" := "abc"]
    ensures QueryFor(ExampleReplies(), 2) == map["per_page" := "150", "starting_after" := "def"]
  {
    FirstStopAt(ExampleReplies(), 2);
  }

  /** The example's result: the five items in page order and the last
      page's count and cursor. */
  lemma ExampleOutcome(c: Client, accepts: string -> bool)
    requires HeadersAccepted(c, accepts)
    ensures Stops(ExampleReplies())
    ensures AllPagesOutcome(c, accepts, ExampleReplies()) ==
      Ok(ListResponse(5, Pages(3, 2, 3, None), ["A", "B", "C", "D", "E"], map[]))
  {
    var replies := ExampleReplies();
    FirstStopAt(replies, 2);
    assert replies[..0] == [];
    GatheredSnoc(replies, 0);
    GatheredSnoc(replies, 1);
    GatheredSnoc(replies, 2);
    assert replies[..3] == replies;
    assert Gathered(replies) == ["A", "B", "C", "D", "E"];
  }
}
