/** The paged-list envelope and its parts (src/util.rs): the wire shape of
    a list response, the derived defaults that seed the pagination loop,
    and serde's "flatten unknown keys into `extra`" rule. */
module Util {
  import opened Json

  /** `NextObject`: where the following page starts. */
  datatype NextObject = NextObject(page: int, startingAfter: string)

  /** `Pages`: the cursor of one page; `next` is absent on the last page. */
  datatype Pages = Pages(page: nat, perPage: nat, totalPages: nat, next: Option<NextObject>)

  datatype TagData = TagData(tagType: string, id: string, url: string)

  datatype Tags = Tags(data: seq<TagData>, url: string, totalCount: int, hasMore: bool)

  /** `ListResponse<T>`: one page of items plus every top-level key the
      struct does not name, kept in `extra`. */
  datatype ListResponse<T> = ListResponse(totalCount: nat, pages: Pages, data: seq<T>, extra: map<string, Value>)

  /** `CatchAll`: an object kept whole. */
  datatype CatchAll = CatchAll(extra: map<string, Value>)

  /** The top-level keys that `ListResponse` decodes into typed fields. */
  const LIST_KEYS: set<string> := {"total_count", "pages", "data"}

  /** The keys of `Pages` on the wire. */
  const PAGES_KEYS: set<string> := {"page", "per_page", "total_pages", "next"}

  /** The fields of `Pages` and of `NextObject` in declaration order. */
  const PAGES_ORDER: seq<string> := ["page", "per_page", "total_pages", "next"]
  const NEXT_ORDER: seq<string> := ["page", "starting_after"]

  // ---------------------------------------------------------------------
  // Derived defaults

  /** `Pages::default()`: every count zero and no next page. */
  function DefaultPages(): (p: Pages)
    ensures p.page == 0 && p.perPage == 0 && p.totalPages == 0
    ensures p.next.None?
  {
    Pages(0, 0, 0, None)
  }

  /** `ListResponse::default()`, the accumulator's seed: no items, no
      unknown keys, a zero count and default pages. */
  function DefaultListResponse<T>(): (r: ListResponse<T>)
    ensures r.totalCount == 0 && r.data == [] && r.extra == map[]
    ensures r.pages == DefaultPages()
  {
    ListResponse(0, DefaultPages(), [], map[])
  }

  /** `TagData::default()`: three empty strings. */
  function DefaultTagData(): (t: TagData)
    ensures t.tagType == [] && t.id == [] && t.url == []
  {
    TagData("", "", "")
  }

  /** `Tags::default()`: no tags, empty url, zero count, no more. */
  function DefaultTags(): (t: Tags)
    ensures t.data == [] && t.url == [] && t.totalCount == 0 && !t.hasMore
  {
    Tags([], "", 0, false)
  }

  // ---------------------------------------------------------------------
  // Decoding and encoding (serde, over JSON values)

  /** A JSON array decoded item by item; one failing item fails the whole
      array, and the items keep their wire order. */
  function DecodeItems<T>(items: seq<Value>, decode: Value -> Option<T>): (r: Option<seq<T>>)
    ensures r.Some? <==> forall i :: 0 <= i < |items| ==> decode(items[i]).Some?
    ensures r.Some? ==> (|r.value| == |items| &&
      forall i :: 0 <= i < |items| ==> decode(items[i]) == Some(r.value[i]))
  {
    if |items| == 0 then Some([])
    else match decode(items[0])
      case None => None
      case Some(x) =>
        match DecodeItems(items[1..], decode)
        case None => None
        case Some(rest) => Some([x] + rest)
  }

  function EncodeItems<T>(data: seq<T>, encode: T -> Value): (items: seq<Value>)
    ensures |items| == |data|
    ensures forall i :: 0 <= i < |data| ==> items[i] == encode(data[i])
  {
    seq(|data|, i requires 0 <= i < |data| => encode(data[i]))
  }

  /** Decoding `NextObject`: both fields required, `page` an `i64` and
      `starting_after` a string. */
  function DecodeNext(v: Value): (r: Option<NextObject>)
    ensures r.Some? <==> (StructFields(v, NEXT_ORDER).Some? &&
      "page" in StructFields(v, NEXT_ORDER).value && "starting_after" in StructFields(v, NEXT_ORDER).value &&
      DecodeI64(StructFields(v, NEXT_ORDER).value["page"]).Some? &&
      DecodeString(StructFields(v, NEXT_ORDER).value["starting_after"]).Some?)
    ensures r.Some? ==> (Number(r.value.page) == StructFields(v, NEXT_ORDER).value["page"] &&
      String(r.value.startingAfter) == StructFields(v, NEXT_ORDER).value["starting_after"])
  {
    var f := StructFields(v, NEXT_ORDER);
    if f.None? || "page" !in f.value || "starting_after" !in f.value then None
    else
      var page := DecodeI64(f.value["page"]);
      var startingAfter := DecodeString(f.value["starting_after"]);
      if page.None? || startingAfter.None? then None
      else Some(NextObject(page.value, startingAfter.value))
  }

  /** Encoding `NextObject`: exactly its two keys. */
  function EncodeNext(n: NextObject): (v: Value)
    ensures v.Object? && v.fields.Keys == {"page", "starting_after"}
  {
    Object(map["page" := Number(n.page), "starting_after" := String(n.startingAfter)])
  }

  lemma NextRoundTrip(n: NextObject)
    requires IsI64(n.page)
    ensures DecodeNext(EncodeNext(n)) == Some(n)
  {
  }

  /** Decoding `Pages`: three required `usize` counts and an optional
      `next`; in the object form, keys the struct does not name are
      ignored and a missing or null `next` is None. */
  function DecodePages(v: Value): (r: Option<Pages>)
    ensures r.Some? <==> (StructFields(v, PAGES_ORDER).Some? &&
      "page" in StructFields(v, PAGES_ORDER).value && "per_page" in StructFields(v, PAGES_ORDER).value &&
      "total_pages" in StructFields(v, PAGES_ORDER).value &&
      DecodeUsize(StructFields(v, PAGES_ORDER).value["page"]).Some? &&
      DecodeUsize(StructFields(v, PAGES_ORDER).value["per_page"]).Some? &&
      DecodeUsize(StructFields(v, PAGES_ORDER).value["total_pages"]).Some? &&
      DecodeOptional(StructFields(v, PAGES_ORDER).value, "next", DecodeNext).Some?)
    ensures r.Some? ==> (r.value.page == StructFields(v, PAGES_ORDER).value["page"].n &&
      r.value.perPage == StructFields(v, PAGES_ORDER).value["per_page"].n &&
      r.value.totalPages == StructFields(v, PAGES_ORDER).value["total_pages"].n &&
      Some(r.value.next) == DecodeOptional(StructFields(v, PAGES_ORDER).value, "next", DecodeNext))
    ensures r.Some? ==> IsUsize(r.value.page) && IsUsize(r.value.perPage) && IsUsize(r.value.totalPages)
  {
    var f := StructFields(v, PAGES_ORDER);
    if f.None? || "page" !in f.value || "per_page" !in f.value || "total_pages" !in f.value then None
    else
      var page := DecodeUsize(f.value["page"]);
      var perPage := DecodeUsize(f.value["per_page"]);
      var totalPages := DecodeUsize(f.value["total_pages"]);
      var next := DecodeOptional(f.value, "next", DecodeNext);
      if page.None? || perPage.None? || totalPages.None? || next.None? then None
      else Some(Pages(page.value, perPage.value, totalPages.value, next.value))
  }

  /** Encoding `Pages`: `next` is not skipped, so a missing next page is
      written as null. */
  function EncodePages(p: Pages): (v: Value)
    ensures v.Object? && v.fields.Keys == PAGES_KEYS
  {
    Object(map["page" := Number(p.page), "per_page" := Number(p.perPage),
               "total_pages" := Number(p.totalPages), "next" := EncodeOptional(p.next, EncodeNext)])
  }

  /** The array form of `Pages`: the four fields in declaration order. */
  lemma PagesFromArray()
    ensures DecodePages(Array([Number(1), Number(150), Number(3), Null])) == Some(Pages(1, 150, 3, None))
  {
    var items := [Number(1), Number(150), Number(3), Null];
    assert Distinct(PAGES_ORDER);
    var f := StructFields(Array(items), PAGES_ORDER).value;
    assert f[PAGES_ORDER[0]] == Number(1) && f[PAGES_ORDER[1]] == Number(150);
    assert f[PAGES_ORDER[2]] == Number(3) && f[PAGES_ORDER[3]] == Null;
    assert DecodeOptional(f, "next", DecodeNext) == Some(None);
  }

  /** An array with a field missing is no `Pages`. */
  lemma PagesFromShortArray()
    ensures DecodePages(Array([Number(1), Number(150), Number(3)])) == None
  {
  }

  /** The ranges the wire types impose on a `Pages` value. */
  predicate PagesInRange(p: Pages)
  {
    IsUsize(p.page) && IsUsize(p.perPage) && IsUsize(p.totalPages) &&
    (p.next.Some? ==> IsI64(p.next.value.page))
  }

  lemma PagesRoundTrip(p: Pages)
    requires PagesInRange(p)
    ensures DecodePages(EncodePages(p)) == Some(p)
  {
    var f := EncodePages(p).fields;
    if p.next.Some? {
      NextRoundTrip(p.next.value);
    }
    assert DecodeOptional(f, "next", DecodeNext) == Some(p.next);
  }

  /** Decoding `ListResponse<T>`: the three named keys are required and
      typed; every other top-level key lands in `extra` with its value. */
  function DecodeListResponse<T>(v: Value, decode: Value -> Option<T>): (r: Option<ListResponse<T>>)
    ensures r.Some? <==> (v.Object? && LIST_KEYS <= v.fields.Keys && v.fields["data"].Array? &&
      DecodeUsize(v.fields["total_count"]).Some? && DecodePages(v.fields["pages"]).Some? &&
      forall i :: 0 <= i < |v.fields["data"].items| ==> decode(v.fields["data"].items[i]).Some?)
    ensures r.Some? ==> (r.value.totalCount == v.fields["total_count"].n &&
      Some(r.value.pages) == DecodePages(v.fields["pages"]))
    ensures r.Some? ==> r.value.extra.Keys == v.fields.Keys - LIST_KEYS
    ensures r.Some? ==> forall k :: k in r.value.extra ==> r.value.extra[k] == v.fields[k]
    ensures r.Some? ==> (v.fields["data"].Array? &&
      |r.value.data| == |v.fields["data"].items| &&
      forall i :: 0 <= i < |r.value.data| ==> decode(v.fields["data"].items[i]) == Some(r.value.data[i]))
  {
    if !v.Object? || !(LIST_KEYS <= v.fields.Keys) || !v.fields["data"].Array? then None
    else
      match (DecodeUsize(v.fields["total_count"]), DecodePages(v.fields["pages"]),
             DecodeItems(v.fields["data"].items, decode))
      case (Some(tc), Some(p), Some(items)) => Some(ListResponse(tc, p, items, v.fields - LIST_KEYS))
      case _ => None
  }

  /** Encoding `ListResponse<T>`: the named fields, then `extra` flattened
      beside them. */
  function EncodeListResponse<T>(r: ListResponse<T>, encode: T -> Value): (v: Value)
    ensures v.Object? && v.fields.Keys == LIST_KEYS + r.extra.Keys
  {
    Object(r.extra + map["total_count" := Number(r.totalCount), "pages" := EncodePages(r.pages),
                         "data" := Array(EncodeItems(r.data, encode))])
  }

  /** Unknown keys survive decode-then-encode: the key set is unchanged,
      and every key the struct does not name keeps its value. */
  lemma ListExtraRoundTrip<T>(v: Value, decode: Value -> Option<T>, encode: T -> Value)
    requires DecodeListResponse(v, decode).Some?
    ensures EncodeListResponse(DecodeListResponse(v, decode).value, encode).fields.Keys == v.fields.Keys
    ensures forall k :: k in v.fields && k !in LIST_KEYS ==>
      EncodeListResponse(DecodeListResponse(v, decode).value, encode).fields[k] == v.fields[k]
  {
  }

  /** Encode-then-decode gives the envelope back, provided the item codec
      round-trips, the numbers fit their wire types, and no unknown key
      shadows a named one (decoding always leaves `extra` so). */
  lemma ListResponseRoundTrip<T>(r: ListResponse<T>, decode: Value -> Option<T>, encode: T -> Value)
    requires forall x :: decode(encode(x)) == Some(x)
    requires IsUsize(r.totalCount) && PagesInRange(r.pages)
    requires r.extra.Keys !! LIST_KEYS
    ensures DecodeListResponse(EncodeListResponse(r, encode), decode) == Some(r)
  {
    var v := EncodeListResponse(r, encode);
    var items := EncodeItems(r.data, encode);
    assert v.fields["data"] == Array(items);
    var d := DecodeItems(items, decode);
    assert d.Some?;
    assert d.value == r.data;
    PagesRoundTrip(r.pages);
    assert v.fields - LIST_KEYS == r.extra;
  }

  /** Decoding `CatchAll`: any object, every key kept. */
  function DecodeCatchAll(v: Value): (r: Option<CatchAll>)
    ensures r.Some? <==> v.Object?
    ensures r.Some? ==> EncodeCatchAll(r.value) == v
  {
    if v.Object? then Some(CatchAll(v.fields)) else None
  }

  /** Encoding `CatchAll`: exactly the kept keys, nothing added. */
  function EncodeCatchAll(c: CatchAll): (v: Value)
    ensures v.Object? && v.fields.Keys == c.extra.Keys
  {
    Object(c.extra)
  }

  lemma CatchAllRoundTrip(c: CatchAll)
    ensures DecodeCatchAll(EncodeCatchAll(c)) == Some(c)
  {
  }
}
