/** The database behind both routers, as one object whose tables the route handlers
    update in place. Each handler is a method: it checks its input, checks ownership,
    then writes or leaves the tables alone, and answers with a status code. The caller's
    identity is the user id the authentication middleware put on the request. */
module Store {
  import opened Common
  import opened Json
  import opened Schemas
  import opened Database
  import opened Scrapbooks
  import opened Songs

  /** `elements.map(el => ({ ...createElementSchema.parse(el), pageId }))`: every entry
      is validated in order and tagged with the page; the first invalid entry stops the map
      with a validation error. */
  method ParseElements(pageId: Id, items: seq<Json>) returns (ok: bool, rows: seq<Element>)
    ensures ok <==> ValidateElements(items).Ok?
    ensures ok ==> rows == Tag(pageId, ValidateElements(items).value)
  {
    rows := [];
    var k := 0;
    while k < |items|
      invariant 0 <= k <= |items|
      invariant ValidateElements(items[..k]).Ok?
      invariant rows == Tag(pageId, ValidateElements(items[..k]).value)
    {
      assert items[..k + 1][..k] == items[..k];
      match ValidateElement(items[k]) {
        case Err(_) =>
          assert items[k] == items[..k + 1][k];
          return false, [];
        case Ok(spec) =>
          ghost var done := ValidateElements(items[..k]).value;
          assert ValidateElements(items[..k + 1]) == Ok(done + [spec]);
          TagSnoc(pageId, done, spec);
          rows := rows + [Element(pageId, spec)];
      }
      k := k + 1;
    }
    assert items[..k] == items;
    ok := true;
  }

  class Store {
    var scrapbooks: seq<Scrapbook>
    var pages: seq<Page>
    var elements: seq<Element>
    var songs: seq<Song>
    var links: seq<SongLink>

    /** The tables as one value. */
    function Tables(): Tables
      reads this
    {
      Database.Tables(scrapbooks, pages, elements, songs, links)
    }

    ghost predicate Valid()
      reads this
    {
      Consistent(Tables())
    }

    constructor ()
      ensures Valid()
      ensures Tables() == Database.Tables([], [], [], [], [])
    {
      scrapbooks, pages, elements, songs, links := [], [], [], [], [];
    }

    /** Rolls a transaction back to the tables it started from. */
    method Restore(t: Tables)
      modifies this
      ensures Tables() == t
    {
      scrapbooks, pages, elements, songs, links := t.scrapbooks, t.pages, t.elements, t.songs, t.links;
    }

    // ============================================================ scrapbooks.ts

    /** POST /scrapbooks. `newId` is the key the database generates and `now` its clock. */
    method CreateScrapbook(user: Id, body: Json, newId: Id, now: int) returns (status: int, created: Option<Scrapbook>)
      requires Valid()
      requires newId !in ScrapbookIds(scrapbooks)
      modifies this
      ensures Valid()
      ensures ValidateCreateScrapbook(body).Err? ==>
        status == BAD_REQUEST && created == None && Tables() == old(Tables())
      ensures ValidateCreateScrapbook(body).Ok? ==>
        var d := ValidateCreateScrapbook(body).value;
        && status == CREATED
        && created == Some(Scrapbook(newId, user, d.title, d.themeCategory, d.isPrivate, now))
        && Tables() == old(Tables()).(scrapbooks := old(scrapbooks) + [created.value])
    {
      match ValidateCreateScrapbook(body)
      case Err(_) =>
        status, created := BAD_REQUEST, None;
      case Ok(d) =>
        var row := Scrapbook(newId, user, d.title, d.themeCategory, d.isPrivate, now);
        assert forall b :: b in scrapbooks + [row] ==> b in scrapbooks || b == row;
        scrapbooks := scrapbooks + [row];
        status, created := CREATED, Some(row);
    }

    /** PATCH /scrapbooks/:id: an owner-scoped `updateMany`. A missing scrapbook and another
        user's scrapbook are both 404; an invalid body is 400 before anything is written. */
    method PatchScrapbook(user: Id, id: Id, body: Json, now: int) returns (status: int)
      requires Valid()
      modifies this
      ensures Valid()
      ensures status == Scrapbooks.PatchScrapbook(old(Tables()), id, user, body, now).status
      ensures Tables() == Scrapbooks.PatchScrapbook(old(Tables()), id, user, body, now).tables
    {
      PatchScrapbookKeepsConsistent(Tables(), id, user, body, now);
      match ValidateUpdateScrapbook(body)
      case Err(_) =>
        status := BAD_REQUEST;
      case Ok(patch) =>
        var w := UpdateOwned(scrapbooks, id, user, patch, now);
        if w.count == 0 {
          status := NOT_FOUND;
        } else {
          scrapbooks := w.rows;
          status := OK;
        }
    }

    /** DELETE /scrapbooks/:id: an owner-scoped `deleteMany`, with the storage layer's
        cascade to the scrapbook's pages, their elements and its song links. */
    method DeleteScrapbook(user: Id, id: Id) returns (status: int)
      requires Valid()
      modifies this
      ensures Valid()
      ensures status == Scrapbooks.DeleteScrapbook(old(Tables()), id, user).status
      ensures Tables() == Scrapbooks.DeleteScrapbook(old(Tables()), id, user).tables
    {
      ghost var r := Scrapbooks.DeleteScrapbook(Tables(), id, user);
      DeleteScrapbookKeepsConsistent(Tables(), id, user);
      DeleteScrapbookSteps(Tables(), id, user);
      var w := DeleteOwned(scrapbooks, id, user);
      if w.count == 0 {
        status := NOT_FOUND;
      } else {
        var gone := PageIds(PagesOf(pages, id));
        scrapbooks, pages, elements, links := w.rows, PagesNotOf(pages, id), ElementsNotOn(elements, gone), LinksNotOf(links, id);
        status := OK;
      }
      assert Tables() == r.tables;
    }

    /** POST /scrapbooks/:id/songs. There is no branch for a schema failure here, so an
        invalid `songId` answers 500; a missing or foreign scrapbook answers 403; a `songId`
        naming no song fails the association's foreign key, 500 again. */
    method AddSong(user: Id, id: Id, body: Json, fmt: Formats) returns (status: int)
      requires Valid()
      modifies this
      ensures Valid()
      ensures ValidateAddSong(body, fmt).Err? ==> status == SERVER_ERROR && Tables() == old(Tables())
      ensures ValidateAddSong(body, fmt).Ok? && !OwnsScrapbook(old(Tables()), id, user) ==>
        status == FORBIDDEN && Tables() == old(Tables())
      ensures ValidateAddSong(body, fmt).Ok? && OwnsScrapbook(old(Tables()), id, user) ==>
        var songId := ValidateAddSong(body, fmt).value;
        && (songId !in SongIds(old(songs)) ==> status == SERVER_ERROR && Tables() == old(Tables()))
        && (songId in SongIds(old(songs)) ==>
              status == CREATED && Tables() == old(Tables()).(links := old(links) + [SongLink(id, songId)]))
    {
      match ValidateAddSong(body, fmt)
      case Err(_) =>
        status := SERVER_ERROR;
      case Ok(songId) =>
        if ResolveScrapbook(Tables(), id, user) != Allow {
          status := FORBIDDEN;
        } else if FindSong(songs, songId).None? {
          status := SERVER_ERROR;
        } else {
          var link := SongLink(id, songId);
          assert forall l :: l in links + [link] ==> l in links || l == link;
          links := links + [link];
          status := CREATED;
        }
    }

    /** POST /scrapbooks/:id/pages. The body is checked before ownership, so an invalid body
        is 400 even for a caller who does not own the scrapbook; a missing or foreign
        scrapbook is 403. */
    method CreatePage(user: Id, id: Id, body: Json, fmt: Formats, newId: Id) returns (status: int, created: Option<Page>)
      requires Valid()
      requires newId !in PageIds(pages)
      modifies this
      ensures Valid()
      ensures ValidateCreatePage(body, fmt).Err? ==>
        status == BAD_REQUEST && created == None && Tables() == old(Tables())
      ensures ValidateCreatePage(body, fmt).Ok? && !OwnsScrapbook(old(Tables()), id, user) ==>
        status == FORBIDDEN && created == None && Tables() == old(Tables())
      ensures ValidateCreatePage(body, fmt).Ok? && OwnsScrapbook(old(Tables()), id, user) ==>
        var d := ValidateCreatePage(body, fmt).value;
        && status == CREATED
        && created == Some(Page(newId, id, d.pageOrder, d.backgroundColor, d.backgroundImageUrl))
        && Tables() == old(Tables()).(pages := old(pages) + [created.value])
    {
      match ValidateCreatePage(body, fmt)
      case Err(_) =>
        status, created := BAD_REQUEST, None;
      case Ok(d) =>
        if ResolveScrapbook(Tables(), id, user) != Allow {
          status, created := FORBIDDEN, None;
        } else {
          var row := Page(newId, id, d.pageOrder, d.backgroundColor, d.backgroundImageUrl);
          assert forall p :: p in pages + [row] ==> p in pages || p == row;
          assert PageIds(pages + [row]) == PageIds(pages) + {newId};
          pages := pages + [row];
          status, created := CREATED, Some(row);
        }
    }

    /** PUT /pages/:pageId. The ownership check runs first, outside the transaction. */
    method ReplacePageLayout(user: Id, pageId: Id, body: Json) returns (status: int)
      requires Valid()
      modifies this
      ensures Valid()
      ensures status == PutPage(old(Tables()), user, pageId, body).status
      ensures Tables() == PutPage(old(Tables()), user, pageId, body).tables
    {
      PutPageKeepsConsistent(Tables(), user, pageId, body);
      if ResolvePage(Tables(), pageId, user) != Allow {
        return FORBIDDEN;
      }
      status := RunTransaction(pageId, body);
    }

    /** The transaction of PUT /pages/:pageId: write the background, delete the page's
        elements, build the replacement rows and insert them. A failure at any step restores
        the tables as they were when the transaction began. */
    method RunTransaction(pageId: Id, body: Json) returns (status: int)
      modifies this
      ensures status == Transaction(old(Tables()), pageId, body).status
      ensures Tables() == Transaction(old(Tables()), pageId, body).tables
    {
      var before := Tables();
      var bg: Background;
      match ParseBackground(body) {
        case Err(_) =>
          return SERVER_ERROR;
        case Ok(b) =>
          bg := b;
      }
      if bg.color.Set? || bg.imageUrl.Set? {
        pages := UpdateBackground(pages, pageId, bg);
      }
      match ElementsInputOf(body) {
        case Untouched =>
        case NotAList =>
          Restore(before);
          return SERVER_ERROR;
        case Replace(items) =>
          elements := WithoutPage(elements, pageId);
          var ok, rows := ParseElements(pageId, items);
          if !ok {
            Restore(before);
            return BAD_REQUEST;
          }
          elements := elements + rows;
      }
      status := OK;
    }
    /** POST /pages/:pageId/elements: one element added to an owned page. The body is
        checked first (400 for anyone); a missing or foreign page is 403. */
    method AddElement(user: Id, pageId: Id, body: Json) returns (status: int, created: Option<Element>)
      requires Valid()
      modifies this
      ensures Valid()
      ensures ValidateElement(body).Err? ==>
        status == BAD_REQUEST && created == None && Tables() == old(Tables())
      ensures ValidateElement(body).Ok? && !OwnsPage(old(Tables()), pageId, user) ==>
        status == FORBIDDEN && created == None && Tables() == old(Tables())
      ensures ValidateElement(body).Ok? && OwnsPage(old(Tables()), pageId, user) ==>
        && status == CREATED
        && created == Some(Element(pageId, ValidateElement(body).value))
        && Tables() == old(Tables()).(elements := old(elements) + [created.value])
    {
      match ValidateElement(body)
      case Err(_) =>
        status, created := BAD_REQUEST, None;
      case Ok(spec) =>
        if ResolvePage(Tables(), pageId, user) != Allow {
          status, created := FORBIDDEN, None;
        } else {
          var row := Element(pageId, spec);
          assert pageId in PageIds(pages) by {
            var p :| p in pages && p.id == pageId && OwnsScrapbook(Tables(), p.scrapbookId, user);
          }
          AppendElementKeepsConsistent(Tables(), row);
          elements := elements + [row];
          status, created := CREATED, Some(row);
        }
    }

    // ============================================================ songs.ts

    /** POST /songs: 400 for a body the schema refuses, otherwise exactly one new song. */
    method CreateSong(body: Json, fmt: Formats, newId: Id) returns (status: int, created: Option<Song>)
      requires Valid()
      requires newId !in SongIds(songs)
      modifies this
      ensures Valid()
      ensures ValidateCreateSong(body, fmt).Err? ==>
        status == BAD_REQUEST && created == None && Tables() == old(Tables())
      ensures ValidateCreateSong(body, fmt).Ok? ==>
        var d := ValidateCreateSong(body, fmt).value;
        && status == CREATED
        && created == Some(Song(newId, d.title, d.artist, d.fileUrl, d.durationSeconds))
        && Tables() == old(Tables()).(songs := old(songs) + [created.value])
    {
      match ValidateCreateSong(body, fmt)
      case Err(_) =>
        status, created := BAD_REQUEST, None;
      case Ok(d) =>
        var row := Song(newId, d.title, d.artist, d.fileUrl, d.durationSeconds);
        assert forall g :: g in songs + [row] ==> g in songs || g == row;
        assert SongIds(songs + [row]) == SongIds(songs) + {newId};
        songs := songs + [row];
        status, created := CREATED, Some(row);
    }
  }
}
