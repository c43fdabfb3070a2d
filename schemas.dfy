/** The zod schemas of the scrapbook routes (backend/src/routes/scrapbooks.ts), as checks
    from a parsed request body to a typed value. A refusal is what zod reports as a ZodError. */
module Schemas {
  import opened Common
  import opened Json

  /** `z.string().uuid()` and `z.string().url()`: the format checks are taken as given. */
  datatype Formats = Formats(isUuid: string -> bool, isUrl: string -> bool)

  // ---------------------------------------------------------------- field parsers

  /** `z.string()` on a required key. */
  function ReqString(f: Option<Json>): Result<string> {
    if f.Some? && f.value.JStr? then Ok(f.value.s) else Err("Expected string")
  }

  /** JavaScript's `.length` of a string: its UTF-16 code units. A character outside the
      Basic Multilingual Plane takes two (a surrogate pair), every other character one. */
  function Utf16Length(s: string): (n: nat)
    ensures |s| <= n <= 2 * |s|
    ensures n == |s| <==> forall k :: 0 <= k < |s| ==> s[k] < '\U{10000}'
    ensures n == 2 * |s| <==> forall k :: 0 <= k < |s| ==> s[k] >= '\U{10000}'
  {
    if s == [] then 0
    else (if s[0] >= '\U{10000}' then 2 else 1) + Utf16Length(s[1..])
  }

  /** `z.string().min(1).max(200)`: the bounds apply to the `.length` zod reads. */
  function Title(f: Option<Json>): Result<string> {
    var s :- ReqString(f);
    if 1 <= Utf16Length(s) <= 200 then Ok(s) else Err("String must contain between 1 and 200 character(s)")
  }

  /** 101 emoji are 202 code units: too long for a title, though only 101 characters. */
  lemma EmojiTitleRefused()
    ensures Title(Some(JStr(seq(101, _ => '\U{1F600}')))).Err?
    ensures Title(Some(JStr(seq(100, _ => '\U{1F600}')))).Ok?
  {
    var long, short := seq(101, _ => '\U{1F600}'), seq(100, _ => '\U{1F600}');
    assert forall k :: 0 <= k < |long| ==> long[k] >= '\U{10000}';
    assert forall k :: 0 <= k < |short| ==> short[k] >= '\U{10000}';
  }

  /** `z.string().optional()`: an absent key is accepted, `null` is not. */
  function OptString(f: Option<Json>): Result<Option<string>> {
    if f.None? then Ok(None) else
    var s :- ReqString(f);
    Ok(Some(s))
  }

  /** `z.boolean().optional()`. */
  function OptBool(f: Option<Json>): Result<Option<bool>> {
    if f.None? then Ok(None)
    else if f.value.JBool? then Ok(Some(f.value.b))
    else Err("Expected boolean")
  }

  /** `z.number()` on a required key. */
  function ReqNumber(f: Option<Json>): Result<real> {
    if f.Some? && f.value.JNum? then Ok(f.value.n) else Err("Expected number")
  }

  /** `z.number().int()`. */
  function ReqInt(f: Option<Json>): Result<int> {
    var n :- ReqNumber(f);
    if IsInteger(n) then Ok(n.Floor) else Err("Expected integer, received float")
  }

  /** `z.number().default(d)`: the default replaces an absent key only. */
  function NumberOr(f: Option<Json>, d: real): Result<real> {
    if f.None? then Ok(d) else ReqNumber(f)
  }

  // ---------------------------------------------------------------- scrapbooks

  /** The fields of a scrapbook to create. */
  datatype NewScrapbook = NewScrapbook(title: string, themeCategory: string, isPrivate: bool)

  /** `createScrapbookSchema`. */
  function ValidateCreateScrapbook(body: Json): (r: Result<NewScrapbook>)
    ensures r.Ok? <==>
      && body.JObj?
      && "title" in body.fields && body.fields["title"].JStr?
      && 1 <= Utf16Length(body.fields["title"].s) <= 200
      && "themeCategory" in body.fields && body.fields["themeCategory"].JStr?
      && ("isPrivate" in body.fields ==> body.fields["isPrivate"].JBool?)
    ensures r.Ok? ==>
      && r.value.title == body.fields["title"].s
      && r.value.themeCategory == body.fields["themeCategory"].s
      && r.value.isPrivate == ("isPrivate" in body.fields && body.fields["isPrivate"].b)
  {
    if !body.JObj? then Err("Expected object") else
    var title :- Title(Field(body, "title"));
    var theme :- ReqString(Field(body, "themeCategory"));
    var isPrivate :- OptBool(Field(body, "isPrivate"));
    Ok(NewScrapbook(title, theme, if isPrivate.Some? then isPrivate.value else false))
  }

  /** The fields a PATCH supplies; None leaves the stored value as it is. */
  datatype ScrapbookPatch = ScrapbookPatch(title: Option<string>, themeCategory: Option<string>, isPrivate: Option<bool>)

  /** `updateScrapbookSchema`: every key optional, each checked when present. */
  function ValidateUpdateScrapbook(body: Json): (r: Result<ScrapbookPatch>)
    ensures r.Ok? <==>
      && body.JObj?
      && ("title" in body.fields ==> body.fields["title"].JStr? && 1 <= Utf16Length(body.fields["title"].s) <= 200)
      && ("themeCategory" in body.fields ==> body.fields["themeCategory"].JStr?)
      && ("isPrivate" in body.fields ==> body.fields["isPrivate"].JBool?)
    ensures r.Ok? ==>
      && (r.value.title.Some? <==> "title" in body.fields)
      && (r.value.title.Some? ==> r.value.title.value == body.fields["title"].s)
      && (r.value.themeCategory.Some? <==> "themeCategory" in body.fields)
      && (r.value.themeCategory.Some? ==> r.value.themeCategory.value == body.fields["themeCategory"].s)
      && (r.value.isPrivate.Some? <==> "isPrivate" in body.fields)
      && (r.value.isPrivate.Some? ==> r.value.isPrivate.value == body.fields["isPrivate"].b)
  {
    if !body.JObj? then Err("Expected object") else
    var title :- if "title" in body.fields then
        var t :- Title(Field(body, "title")); Ok(Some(t))
      else Ok(None);
    var theme :- OptString(Field(body, "themeCategory"));
    var isPrivate :- OptBool(Field(body, "isPrivate"));
    Ok(ScrapbookPatch(title, theme, isPrivate))
  }

  // ---------------------------------------------------------------- pages

  /** The fields of a page to create. The body's `scrapbookId` is checked but the page is
      filed under the scrapbook named in the path, so it is not kept. */
  datatype NewPage = NewPage(pageOrder: int, backgroundColor: Option<string>, backgroundImageUrl: Option<string>)

  /** `createPageSchema`. */
  function ValidateCreatePage(body: Json, fmt: Formats): (r: Result<NewPage>)
    ensures r.Ok? <==>
      && body.JObj?
      && "scrapbookId" in body.fields && body.fields["scrapbookId"].JStr?
      && fmt.isUuid(body.fields["scrapbookId"].s)
      && "pageOrder" in body.fields && body.fields["pageOrder"].JNum?
      && IsInteger(body.fields["pageOrder"].n) && body.fields["pageOrder"].n >= 0.0
      && ("backgroundColor" in body.fields ==> body.fields["backgroundColor"].JStr?)
      && ("backgroundImageUrl" in body.fields ==>
            body.fields["backgroundImageUrl"].JStr? && fmt.isUrl(body.fields["backgroundImageUrl"].s))
    ensures r.Ok? ==>
      && r.value.pageOrder >= 0
      && r.value.pageOrder as real == body.fields["pageOrder"].n
      && (r.value.backgroundColor.Some? <==> "backgroundColor" in body.fields)
      && (r.value.backgroundColor.Some? ==> r.value.backgroundColor.value == body.fields["backgroundColor"].s)
      && (r.value.backgroundImageUrl.Some? <==> "backgroundImageUrl" in body.fields)
      && (r.value.backgroundImageUrl.Some? ==> r.value.backgroundImageUrl.value == body.fields["backgroundImageUrl"].s)
  {
    if !body.JObj? then Err("Expected object") else
    var scrapbookId :- ReqString(Field(body, "scrapbookId"));
    if !fmt.isUuid(scrapbookId) then Err("Invalid uuid") else
    var pageOrder :- ReqInt(Field(body, "pageOrder"));
    if pageOrder < 0 then Err("Number must be greater than or equal to 0") else
    var color :- OptString(Field(body, "backgroundColor"));
    var image :- OptString(Field(body, "backgroundImageUrl"));
    if image.Some? && !fmt.isUrl(image.value) then Err("Invalid url") else
    Ok(NewPage(pageOrder, color, image))
  }

  // ---------------------------------------------------------------- elements

  datatype ElementKind = Photo | Sticker | Text

  /** A validated element: everything a row holds except the page it sits on. */
  datatype ElementSpec = ElementSpec(
    kind: ElementKind,
    xPos: real,
    yPos: real,
    rotation: real,
    scale: real,
    zIndex: int,
    properties: map<string, Json>)

  /** `z.enum(['photo', 'sticker', 'text'])`. */
  function ParseKind(f: Option<Json>): (r: Result<ElementKind>)
  {
    var s :- ReqString(f);
    if s == "photo" then Ok(Photo)
    else if s == "sticker" then Ok(Sticker)
    else if s == "text" then Ok(Text)
    else Err("Invalid enum value")
  }

  /** `createElementSchema`: rotation defaults to 0, scale to 1 and must be positive,
      zIndex must be an integer and properties a record. */
  function ValidateElement(body: Json): (r: Result<ElementSpec>)
    ensures r.Ok? <==>
      && body.JObj?
      && "type" in body.fields
      && body.fields["type"] in {JStr("photo"), JStr("sticker"), JStr("text")}
      && "xPos" in body.fields && body.fields["xPos"].JNum?
      && "yPos" in body.fields && body.fields["yPos"].JNum?
      && ("rotation" in body.fields ==> body.fields["rotation"].JNum?)
      && ("scale" in body.fields ==> body.fields["scale"].JNum? && body.fields["scale"].n > 0.0)
      && "zIndex" in body.fields && body.fields["zIndex"].JNum? && IsInteger(body.fields["zIndex"].n)
      && "properties" in body.fields && body.fields["properties"].JObj?
    ensures r.Ok? ==>
      && r.value.kind == (match body.fields["type"].s
                          case "photo" => Photo
                          case "sticker" => Sticker
                          case _ => Text)
      && r.value.xPos == body.fields["xPos"].n
      && r.value.yPos == body.fields["yPos"].n
      && r.value.rotation == (if "rotation" in body.fields then body.fields["rotation"].n else 0.0)
      && r.value.scale == (if "scale" in body.fields then body.fields["scale"].n else 1.0)
      && r.value.scale > 0.0
      && r.value.zIndex as real == body.fields["zIndex"].n
      && r.value.properties == body.fields["properties"].fields
  {
    if !body.JObj? then Err("Expected object") else
    var kind :- ParseKind(Field(body, "type"));
    var x :- ReqNumber(Field(body, "xPos"));
    var y :- ReqNumber(Field(body, "yPos"));
    var rotation :- NumberOr(Field(body, "rotation"), 0.0);
    var scale :- NumberOr(Field(body, "scale"), 1.0);
    if scale <= 0.0 then Err("Number must be greater than 0") else
    var z :- ReqInt(Field(body, "zIndex"));
    var props := Field(body, "properties");
    if !(props.Some? && props.value.JObj?) then Err("Expected object") else
    Ok(ElementSpec(kind, x, y, rotation, scale, z, props.value.fields))
  }

  /** The name `createElementSchema` accepts for each kind. */
  function KindName(k: ElementKind): string {
    match k
    case Photo => "photo"
    case Sticker => "sticker"
    case Text => "text"
  }

  /** An element as a client sends it back: every key written out, none left to a default. */
  function ElementJson(s: ElementSpec): Json {
    JObj(map[
      "type" := JStr(KindName(s.kind)),
      "xPos" := JNum(s.xPos),
      "yPos" := JNum(s.yPos),
      "rotation" := JNum(s.rotation),
      "scale" := JNum(s.scale),
      "zIndex" := JNum(s.zIndex as real),
      "properties" := JObj(s.properties)])
  }

  /** Every element the schema can produce is accepted again, unchanged, when it is sent
      back; and only those can be, since a stored scale is always positive. */
  lemma ElementRoundTrip(s: ElementSpec)
    ensures ValidateElement(ElementJson(s)) == (if s.scale > 0.0 then Ok(s) else Err("Number must be greater than 0"))
  {
    assert (s.zIndex as real).Floor == s.zIndex;
  }

  /** `elements.map(el => createElementSchema.parse(el))`: every entry validated in order;
      the first refusal aborts the whole batch. */
  function ValidateElements(items: seq<Json>): (r: Result<seq<ElementSpec>>)
    ensures r.Ok? <==> forall k :: 0 <= k < |items| ==> ValidateElement(items[k]).Ok?
    ensures r.Ok? ==> |r.value| == |items|
    ensures r.Ok? ==> forall k :: 0 <= k < |items| ==> r.value[k] == ValidateElement(items[k]).value
  {
    if items == [] then Ok([])
    else
      var init := items[..|items| - 1];
      var specs :- ValidateElements(init);
      var last :- ValidateElement(items[|items| - 1]);
      assert forall k :: 0 <= k < |init| ==> init[k] == items[k];
      Ok(specs + [last])
  }

  /** The body `{ songId }` of POST /scrapbooks/:id/songs: `z.string().uuid()`. */
  function ValidateAddSong(body: Json, fmt: Formats): (r: Result<Id>)
    ensures r.Ok? <==>
      body.JObj? && "songId" in body.fields && body.fields["songId"].JStr? && fmt.isUuid(body.fields["songId"].s)
    ensures r.Ok? ==> r.value == body.fields["songId"].s
  {
    if !body.JObj? then Err("Expected object") else
    var songId :- ReqString(Field(body, "songId"));
    if fmt.isUuid(songId) then Ok(songId) else Err("Invalid uuid")
  }
}
