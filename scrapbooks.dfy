/** The logic of backend/src/routes/scrapbooks.ts that reads the tables or computes the
    tables a write leaves behind: the read-visibility rule, the two read handlers, the
    owner-scoped update and delete, and the page-layout transaction. */
module Scrapbooks {
  import opened Common
  import opened Json
  import opened Schemas
  import opened Sorting
  import opened Database

  /** A handler's answer: its status code and the tables after it. */
  datatype Outcome = Outcome(status: int, tables: Tables)

  // ================================================================ reads

  /** A private scrapbook is readable by its owner only; any other is readable by all. */
  predicate CanRead(b: Scrapbook, user: Id) {
    !(b.isPrivate && b.userId != user)
  }

  /** The orders the read handlers ask for. */
  predicate PageOrderLe(a: Page, b: Page) { a.pageOrder <= b.pageOrder }
  predicate ZIndexLe(a: Element, b: Element) { a.spec.zIndex <= b.spec.zIndex }
  predicate NewestFirst(a: Scrapbook, b: Scrapbook) { a.updatedAt >= b.updatedAt }

  lemma OrdersArePreorders()
    ensures Total(PageOrderLe) && Transitive(PageOrderLe)
    ensures Total(ZIndexLe) && Transitive(ZIndexLe)
    ensures Total(NewestFirst) && Transitive(NewestFirst)
  {
  }

  /** `include: { song: true }` over the association rows: the song each link names. */
  function LinkedSongs(links: seq<SongLink>, songs: seq<Song>): (r: seq<Song>)
    ensures |r| <= |links|
    ensures (forall l :: l in links ==> l.songId in SongIds(songs)) ==> |r| == |links|
    ensures forall k :: 0 <= k < |r| ==> r[k] in songs
    ensures forall g :: g in r ==> exists l :: l in links && l.songId == g.id
  {
    if links == [] then []
    else
      var rest := LinkedSongs(links[1..], songs);
      assert forall l :: l in links[1..] ==> l in links;
      match FindSong(songs, links[0].songId)
      case None => rest
      case Some(i) => [songs[i]] + rest
  }

  /** When every link names a stored song, the songs come one per link, in link order,
      each the song its link names. */
  lemma LinkedSongsFollowLinks(links: seq<SongLink>, songs: seq<Song>)
    requires forall l :: l in links ==> l.songId in SongIds(songs)
    ensures |LinkedSongs(links, songs)| == |links|
    ensures forall k :: 0 <= k < |links| ==> LinkedSongs(links, songs)[k].id == links[k].songId
  {
    LinkedSongsAt(links, songs);
  }

  lemma {:induction false} LinkedSongsAt(links: seq<SongLink>, songs: seq<Song>)
    requires forall k :: 0 <= k < |links| ==> links[k].songId in SongIds(songs)
    ensures |LinkedSongs(links, songs)| == |links|
    ensures forall k :: 0 <= k < |links| ==> LinkedSongs(links, songs)[k].id == links[k].songId
  {
    if links != [] {
      var tail := links[1..];
      var rest := LinkedSongs(tail, songs);
      var found := FindSong(songs, links[0].songId);
      assert found.Some? by {
        assert links[0].songId in SongIds(songs);
      }
      assert |rest| == |tail| && forall k :: 0 <= k < |tail| ==> rest[k].id == links[k + 1].songId by {
        assert forall k :: 0 <= k < |tail| ==> tail[k] == links[k + 1];
        LinkedSongsAt(tail, songs);
      }
      var r := [songs[found.value]] + rest;
      assert LinkedSongs(links, songs) == r;
      forall k | 0 <= k < |links| ensures r[k].id == links[k].songId {
        if k > 0 {
          assert r[k] == rest[k - 1];
        }
      }
    }
  }

  /** A page as GET /scrapbooks/:id returns it: with its elements, lowest zIndex first. */
  datatype PageView = PageView(page: Page, elements: seq<Element>)

  /** A scrapbook with all its pages (lowest pageOrder first) and its songs. */
  datatype Detail = Detail(scrapbook: Scrapbook, pages: seq<PageView>, songs: seq<Song>)

  function ViewPage(elements: seq<Element>, p: Page): (v: PageView)
    ensures v.page == p
    ensures multiset(v.elements) == multiset(ElementsOf(elements, p.id))
    ensures Sorted(v.elements, ZIndexLe)
  {
    OrdersArePreorders();
    PageView(p, SortBy(ElementsOf(elements, p.id), ZIndexLe))
  }

  function PagesOfViews(vs: seq<PageView>): seq<Page>
  {
    seq(|vs|, k requires 0 <= k < |vs| => vs[k].page)
  }

  /** One view per page, in the given order. */
  function Views(elements: seq<Element>, pages: seq<Page>): (vs: seq<PageView>)
    ensures PagesOfViews(vs) == pages
    ensures forall v :: v in vs ==> v == ViewPage(elements, v.page)
  {
    var vs := seq(|pages|, k requires 0 <= k < |pages| => ViewPage(elements, pages[k]));
    assert PagesOfViews(vs) == pages;
    vs
  }

  /** With unique ids, the row found by id is the only row with that id. */
  lemma OnlyScrapbookWithId(s: seq<Scrapbook>, i: nat)
    requires UniqueScrapbookIds(s) && i < |s|
    ensures forall b :: b in s && b.id == s[i].id ==> b == s[i]
  {
    forall b | b in s && b.id == s[i].id ensures b == s[i] {
      var j :| 0 <= j < |s| && s[j] == b;
      assert !(i < j) && !(j < i);
    }
  }

  /** GET /scrapbooks/:id. */
  function GetScrapbook(t: Tables, id: Id, user: Id): (r: (int, Option<Detail>))
    requires UniqueScrapbookIds(t.scrapbooks)
    ensures r.0 == NOT_FOUND <==> id !in ScrapbookIds(t.scrapbooks)
    ensures r.0 == FORBIDDEN <==> exists b :: b in t.scrapbooks && b.id == id && !CanRead(b, user)
    ensures r.0 == OK <==> exists b :: b in t.scrapbooks && b.id == id && CanRead(b, user)
    ensures r.1.Some? <==> r.0 == OK
    ensures r.1.Some? ==>
      var d := r.1.value;
      && d.scrapbook in t.scrapbooks && d.scrapbook.id == id
      && multiset(PagesOfViews(d.pages)) == multiset(PagesOf(t.pages, id))
      && Sorted(PagesOfViews(d.pages), PageOrderLe)
      && (forall v :: v in d.pages ==>
            multiset(v.elements) == multiset(ElementsOf(t.elements, v.page.id)) && Sorted(v.elements, ZIndexLe))
      && d.songs == LinkedSongs(LinksOf(t.links, id), t.songs)
  {
    match FindScrapbook(t.scrapbooks, id)
    case None => (NOT_FOUND, None)
    case Some(i) =>
      var b := t.scrapbooks[i];
      assert b in t.scrapbooks;
      OnlyScrapbookWithId(t.scrapbooks, i);
      if b.isPrivate && b.userId != user then (FORBIDDEN, None)
      else
        OrdersArePreorders();
        var pages := SortBy(PagesOf(t.pages, id), PageOrderLe);
        (OK, Some(Detail(b, Views(t.elements, pages), LinkedSongs(LinksOf(t.links, id), t.songs))))
  }

  /** A scrapbook as GET /scrapbooks lists it: with its first page, its page count and its songs. */
  datatype Summary = Summary(scrapbook: Scrapbook, firstPage: Option<Page>, pageCount: nat, songs: seq<Song>)

  /** `where: { userId }`. */
  function OwnedBy(s: seq<Scrapbook>, user: Id): (r: seq<Scrapbook>)
    ensures forall b :: b in r <==> b in s && b.userId == user
  {
    if s == [] then []
    else (if s[0].userId == user then [s[0]] else []) + OwnedBy(s[1..], user)
  }

  function Summarize(t: Tables, b: Scrapbook): (x: Summary)
    ensures x.scrapbook == b
    ensures x.pageCount == |PagesOf(t.pages, b.id)|
    ensures x.songs == LinkedSongs(LinksOf(t.links, b.id), t.songs)
    ensures x.firstPage.None? <==> PagesOf(t.pages, b.id) == []
    ensures x.firstPage.Some? ==>
      x.firstPage.value in PagesOf(t.pages, b.id) &&
      forall q :: q in PagesOf(t.pages, b.id) ==> x.firstPage.value.pageOrder <= q.pageOrder
  {
    OrdersArePreorders();
    var pages := SortBy(PagesOf(t.pages, b.id), PageOrderLe);
    assert forall q :: q in PagesOf(t.pages, b.id) ==> q in multiset(pages);
    assert pages != [] ==> pages[0] in multiset(pages);
    SortedHeadIsLeast(pages, PageOrderLe);
    Summary(b, if pages == [] then None else Some(pages[0]), |pages|, LinkedSongs(LinksOf(t.links, b.id), t.songs))
  }

  function ScrapbooksOf(xs: seq<Summary>): seq<Scrapbook>
  {
    seq(|xs|, k requires 0 <= k < |xs| => xs[k].scrapbook)
  }

  /** One summary per scrapbook, in the given order. */
  function Summaries(t: Tables, bs: seq<Scrapbook>): (r: seq<Summary>)
    ensures ScrapbooksOf(r) == bs
    ensures forall x :: x in r ==> x == Summarize(t, x.scrapbook)
  {
    var r := seq(|bs|, k requires 0 <= k < |bs| => Summarize(t, bs[k]));
    assert ScrapbooksOf(r) == bs;
    r
  }

  /** GET /scrapbooks: the caller's own scrapbooks, most recently updated first. */
  function ListScrapbooks(t: Tables, user: Id): (r: seq<Summary>)
    ensures multiset(ScrapbooksOf(r)) == multiset(OwnedBy(t.scrapbooks, user))
    ensures forall x :: x in r ==> x.scrapbook in t.scrapbooks && x.scrapbook.userId == user
    ensures Sorted(ScrapbooksOf(r), NewestFirst)
    ensures forall x :: x in r ==> x == Summarize(t, x.scrapbook)
  {
    OrdersArePreorders();
    var sorted := SortBy(OwnedBy(t.scrapbooks, user), NewestFirst);
    var r := Summaries(t, sorted);
    forall x | x in r ensures x.scrapbook in t.scrapbooks && x.scrapbook.userId == user {
      var k :| 0 <= k < |r| && r[k] == x;
      assert x.scrapbook == sorted[k] by { assert ScrapbooksOf(r)[k] == x.scrapbook; }
      assert x.scrapbook in multiset(OwnedBy(t.scrapbooks, user)) by { assert sorted[k] in multiset(sorted); }
    }
    r
  }

  // ================================================================ owner-scoped writes

  /** A `updateMany` / `deleteMany` result: how many rows matched, and the table after. */
  datatype Write<T> = Write(count: nat, rows: seq<T>)

  /** The row is the one `where: { id, userId }` matches. */
  predicate Matches(b: Scrapbook, id: Id, user: Id) {
    b.id == id && b.userId == user
  }

  /** `after` is `before` with the supplied fields of the patch written, the rest kept. */
  ghost predicate PatchedFrom(after: Scrapbook, before: Scrapbook, p: ScrapbookPatch, now: int) {
    && after.id == before.id
    && after.userId == before.userId
    && after.title == (if p.title.Some? then p.title.value else before.title)
    && after.themeCategory == (if p.themeCategory.Some? then p.themeCategory.value else before.themeCategory)
    && after.isPrivate == (if p.isPrivate.Some? then p.isPrivate.value else before.isPrivate)
    && after.updatedAt == now
  }

  function ApplyPatch(b: Scrapbook, p: ScrapbookPatch, now: int): Scrapbook {
    b.(title := if p.title.Some? then p.title.value else b.title,
       themeCategory := if p.themeCategory.Some? then p.themeCategory.value else b.themeCategory,
       isPrivate := if p.isPrivate.Some? then p.isPrivate.value else b.isPrivate,
       updatedAt := now)
  }

  /** How many rows `where: { id, userId }` matches. */
  function CountMatches(s: seq<Scrapbook>, id: Id, user: Id): (n: nat)
    ensures n == 0 <==> forall b :: b in s ==> !Matches(b, id, user)
    ensures n <= |s|
  {
    if s == [] then 0
    else
      assert forall b :: b in s <==> b == s[0] || b in s[1..];
      (if Matches(s[0], id, user) then 1 else 0) + CountMatches(s[1..], id, user)
  }

  /** A validated patch that names no field: `{}`, or a body whose keys the schema strips. */
  predicate EmptyPatch(p: ScrapbookPatch) {
    p.title.None? && p.themeCategory.None? && p.isPrivate.None?
  }

  /** `prisma.scrapbook.updateMany({ where: { id, userId }, data })`. With nothing to write
      the storage engine issues no statement and reports a count of 0, and `updatedAt` is
      not touched either. */
  function UpdateOwned(s: seq<Scrapbook>, id: Id, user: Id, p: ScrapbookPatch, now: int): (r: Write<Scrapbook>)
    ensures |r.rows| == |s|
    ensures r.count == 0 <==> EmptyPatch(p) || forall b :: b in s ==> !Matches(b, id, user)
    ensures r.count == 0 ==> r.rows == s
    ensures !EmptyPatch(p) ==>
      forall k :: 0 <= k < |s| && Matches(s[k], id, user) ==> PatchedFrom(r.rows[k], s[k], p, now)
    ensures forall k :: 0 <= k < |s| && !Matches(s[k], id, user) ==> r.rows[k] == s[k]
  {
    if EmptyPatch(p) then Write(0, s)
    else
      var rows := seq(|s|, k requires 0 <= k < |s| => if Matches(s[k], id, user) then ApplyPatch(s[k], p, now) else s[k]);
      var n := CountMatches(s, id, user);
      assert n == 0 ==> rows == s by {
        if n == 0 {
          forall k | 0 <= k < |s| ensures rows[k] == s[k] {
            assert s[k] in s;
          }
        }
      }
      Write(n, rows)
  }

  /** PATCH /scrapbooks/:id: the body is checked first (400), then one owner-scoped
      `updateMany`; a count of 0 is 404, whether the scrapbook is missing, someone
      else's, or the patch names no field. */
  function PatchScrapbook(t: Tables, id: Id, user: Id, body: Json, now: int): (r: Outcome)
    ensures r.status in {OK, BAD_REQUEST, NOT_FOUND}
    ensures r.status == BAD_REQUEST <==> ValidateUpdateScrapbook(body).Err?
    ensures r.status == NOT_FOUND <==>
      ValidateUpdateScrapbook(body).Ok? && (EmptyPatch(ValidateUpdateScrapbook(body).value) || !OwnsScrapbook(t, id, user))
    ensures r.status != OK ==> r.tables == t
    ensures r.status == OK ==>
      && !EmptyPatch(ValidateUpdateScrapbook(body).value)
      && r.tables == t.(scrapbooks := r.tables.scrapbooks)
      && |r.tables.scrapbooks| == |t.scrapbooks|
      && forall k :: 0 <= k < |t.scrapbooks| ==>
           if Matches(t.scrapbooks[k], id, user)
           then PatchedFrom(r.tables.scrapbooks[k], t.scrapbooks[k], ValidateUpdateScrapbook(body).value, now)
           else r.tables.scrapbooks[k] == t.scrapbooks[k]
  {
    match ValidateUpdateScrapbook(body)
    case Err(_) => Outcome(BAD_REQUEST, t)
    case Ok(patch) =>
      var w := UpdateOwned(t.scrapbooks, id, user, patch, now);
      if w.count == 0 then Outcome(NOT_FOUND, t)
      else Outcome(OK, t.(scrapbooks := w.rows))
  }

  /** A patch never touches a key, so every reference stays valid. */
  lemma PatchScrapbookKeepsConsistent(t: Tables, id: Id, user: Id, body: Json, now: int)
    requires Consistent(t)
    ensures Consistent(PatchScrapbook(t, id, user, body, now).tables)
  {
    var r := PatchScrapbook(t, id, user, body, now);
    if r.status == OK {
      ScrapbookKeysKept(t.scrapbooks, r.tables.scrapbooks);
    }
  }

  /** Rewriting scrapbooks position by position without touching a key keeps the set of
      keys and their uniqueness. */
  lemma ScrapbookKeysKept(before: seq<Scrapbook>, after: seq<Scrapbook>)
    requires |after| == |before|
    requires forall k :: 0 <= k < |before| ==> after[k].id == before[k].id
    ensures ScrapbookIds(after) == ScrapbookIds(before)
    ensures UniqueScrapbookIds(before) ==> UniqueScrapbookIds(after)
  {
    forall x | x in ScrapbookIds(before) ensures x in ScrapbookIds(after) {
      var k :| 0 <= k < |before| && before[k].id == x;
      assert after[k] in after;
    }
    forall x | x in ScrapbookIds(after) ensures x in ScrapbookIds(before) {
      var k :| 0 <= k < |after| && after[k].id == x;
      assert before[k] in before;
    }
  }

  /** `prisma.scrapbook.deleteMany({ where: { id, userId } })`. */
  function DeleteOwned(s: seq<Scrapbook>, id: Id, user: Id): (r: Write<Scrapbook>)
    ensures r.count == 0 <==> forall b :: b in s ==> !Matches(b, id, user)
    ensures r.count == 0 ==> r.rows == s
    ensures forall b :: b in r.rows <==> b in s && !Matches(b, id, user)
    ensures UniqueScrapbookIds(s) ==> UniqueScrapbookIds(r.rows)
  {
    if s == [] then Write(0, [])
    else
      var rest := DeleteOwned(s[1..], id, user);
      assert forall b :: b in s <==> b == s[0] || b in s[1..];
      assert UniqueScrapbookIds(s) ==> UniqueScrapbookIds(s[1..]) by {
        if UniqueScrapbookIds(s) {
          forall i, j | 0 <= i < j < |s[1..]| ensures s[1..][i].id != s[1..][j].id {
            assert s[1..][i] == s[i + 1] && s[1..][j] == s[j + 1];
          }
        }
      }
      if Matches(s[0], id, user) then Write(rest.count + 1, rest.rows)
      else
        var rows := [s[0]] + rest.rows;
        assert UniqueScrapbookIds(s) ==> UniqueScrapbookIds(rows) by {
          if UniqueScrapbookIds(s) {
            forall i, j | 0 <= i < j < |rows| ensures rows[i].id != rows[j].id {
              assert rows[j] == rest.rows[j - 1];
              if i == 0 {
                assert rows[j] in s[1..];
                var m :| 0 <= m < |s[1..]| && s[1..][m] == rows[j];
                assert s[m + 1] == rows[j];
              } else {
                assert rows[i] == rest.rows[i - 1];
              }
            }
          }
        }
        Write(rest.count, rows)
  }

  // ---------------------------------------------------------------- the storage layer's cascade

  function PagesNotOf(s: seq<Page>, sbId: Id): (r: seq<Page>)
    ensures forall p :: p in r <==> p in s && p.scrapbookId != sbId
    ensures UniquePageIds(s) ==> UniquePageIds(r)
  {
    if s == [] then []
    else
      var rest := PagesNotOf(s[1..], sbId);
      assert UniquePageIds(s) ==> forall k :: 0 <= k < |rest| ==> rest[k].id != s[0].id by {
        if UniquePageIds(s) {
          forall k | 0 <= k < |rest| ensures rest[k].id != s[0].id {
            assert rest[k] in s[1..];
          }
        }
      }
      (if s[0].scrapbookId != sbId then [s[0]] else []) + rest
  }

  function ElementsNotOn(s: seq<Element>, pageIds: set<Id>): (r: seq<Element>)
    ensures forall e :: e in r <==> e in s && e.pageId !in pageIds
  {
    if s == [] then []
    else (if s[0].pageId !in pageIds then [s[0]] else []) + ElementsNotOn(s[1..], pageIds)
  }

  function LinksNotOf(s: seq<SongLink>, sbId: Id): (r: seq<SongLink>)
    ensures forall l :: l in r <==> l in s && l.scrapbookId != sbId
  {
    if s == [] then []
    else (if s[0].scrapbookId != sbId then [s[0]] else []) + LinksNotOf(s[1..], sbId)
  }

  /** The cascade keeps every other page's elements, copies and order included. */
  lemma {:induction false} ElementsOfNotOn(s: seq<Element>, pageIds: set<Id>, q: Id)
    ensures ElementsOf(ElementsNotOn(s, pageIds), q) == if q in pageIds then [] else ElementsOf(s, q)
  {
    if s != [] {
      ElementsOfNotOn(s[1..], pageIds, q);
      var rest := ElementsNotOn(s[1..], pageIds);
      if s[0].pageId in pageIds {
        assert ElementsNotOn(s, pageIds) == rest;
        assert q != s[0].pageId ==> ElementsOf(s, q) == ElementsOf(s[1..], q);
      } else {
        var x := [s[0]] + rest;
        assert ElementsNotOn(s, pageIds) == x;
        assert x[1..] == rest;
        assert ElementsOf(x, q) == (if s[0].pageId == q then [s[0]] else []) + ElementsOf(rest, q);
      }
    }
  }

  /** The cascade keeps every other scrapbook's pages. */
  lemma {:induction false} PagesOfNotOf(s: seq<Page>, sbId: Id, q: Id)
    ensures PagesOf(PagesNotOf(s, sbId), q) == if q == sbId then [] else PagesOf(s, q)
  {
    if s != [] {
      PagesOfNotOf(s[1..], sbId, q);
      var rest := PagesNotOf(s[1..], sbId);
      if s[0].scrapbookId == sbId {
        assert PagesNotOf(s, sbId) == rest;
        assert q != sbId ==> PagesOf(s, q) == PagesOf(s[1..], q);
      } else {
        var x := [s[0]] + rest;
        assert PagesNotOf(s, sbId) == x;
        assert x[1..] == rest;
        assert PagesOf(x, q) == (if s[0].scrapbookId == q then [s[0]] else []) + PagesOf(rest, q);
      }
    }
  }

  /** The cascade keeps every other scrapbook's song links, copies and order included. */
  lemma {:induction false} LinksOfNotOf(s: seq<SongLink>, sbId: Id, q: Id)
    ensures LinksOf(LinksNotOf(s, sbId), q) == if q == sbId then [] else LinksOf(s, q)
  {
    if s != [] {
      LinksOfNotOf(s[1..], sbId, q);
      var rest := LinksNotOf(s[1..], sbId);
      if s[0].scrapbookId == sbId {
        assert LinksNotOf(s, sbId) == rest;
        assert q != sbId ==> LinksOf(s, q) == LinksOf(s[1..], q);
      } else {
        var x := [s[0]] + rest;
        assert LinksNotOf(s, sbId) == x;
        assert x[1..] == rest;
        assert LinksOf(x, q) == (if s[0].scrapbookId == q then [s[0]] else []) + LinksOf(rest, q);
      }
    }
  }

  /** Deleting a scrapbook row takes its pages, their elements and its song links with it. */
  function Cascade(t: Tables, sbId: Id): Tables {
    t.(pages := PagesNotOf(t.pages, sbId),
       elements := ElementsNotOn(t.elements, PageIds(PagesOf(t.pages, sbId))),
       links := LinksNotOf(t.links, sbId))
  }

  /** DELETE /scrapbooks/:id: one owner-scoped `deleteMany`; no match is 404 whether the
      scrapbook is missing or belongs to someone else. */
  function DeleteScrapbook(t: Tables, id: Id, user: Id): (r: Outcome)
    ensures r.status in {OK, NOT_FOUND}
    ensures r.status == NOT_FOUND <==> !OwnsScrapbook(t, id, user)
    ensures r.status == NOT_FOUND ==> r.tables == t
    ensures r.status == OK ==>
      && (forall b :: b in r.tables.scrapbooks <==> b in t.scrapbooks && !Matches(b, id, user))
      && (forall p :: p in r.tables.pages <==> p in t.pages && p.scrapbookId != id)
      && (forall e :: e in r.tables.elements <==> e in t.elements && e.pageId !in PageIds(PagesOf(t.pages, id)))
      && (forall l :: l in r.tables.links <==> l in t.links && l.scrapbookId != id)
      && r.tables.songs == t.songs
  {
    var w := DeleteOwned(t.scrapbooks, id, user);
    if w.count == 0 then Outcome(NOT_FOUND, t)
    else Outcome(OK, Cascade(t, id).(scrapbooks := w.rows))
  }

  /** After a DELETE, every other scrapbook keeps its pages and song links and every
      surviving page its elements; the deleted scrapbook and its pages have none left. */
  lemma DeleteScrapbookCascades(t: Tables, id: Id, user: Id)
    ensures var r := DeleteScrapbook(t, id, user);
      r.status == OK ==>
      && (forall q :: ElementsOf(r.tables.elements, q) ==
                        if q in PageIds(PagesOf(t.pages, id)) then [] else ElementsOf(t.elements, q))
      && (forall q :: PagesOf(r.tables.pages, q) == if q == id then [] else PagesOf(t.pages, q))
      && (forall q :: LinksOf(r.tables.links, q) == if q == id then [] else LinksOf(t.links, q))
  {
    forall q ensures ElementsOf(Cascade(t, id).elements, q) ==
                       if q in PageIds(PagesOf(t.pages, id)) then [] else ElementsOf(t.elements, q) {
      ElementsOfNotOn(t.elements, PageIds(PagesOf(t.pages, id)), q);
    }
    forall q ensures PagesOf(Cascade(t, id).pages, q) == if q == id then [] else PagesOf(t.pages, q) {
      PagesOfNotOf(t.pages, id, q);
    }
    forall q ensures LinksOf(Cascade(t, id).links, q) == if q == id then [] else LinksOf(t.links, q) {
      LinksOfNotOf(t.links, id, q);
    }
  }

  /** The outcome of DELETE as the two steps the route takes: `deleteMany`, then the cascade. */
  lemma DeleteScrapbookSteps(t: Tables, id: Id, user: Id)
    ensures DeleteOwned(t.scrapbooks, id, user).count == 0 ==> DeleteScrapbook(t, id, user) == Outcome(NOT_FOUND, t)
    ensures DeleteOwned(t.scrapbooks, id, user).count != 0 ==>
      DeleteScrapbook(t, id, user) == Outcome(OK, Cascade(t, id).(scrapbooks := DeleteOwned(t.scrapbooks, id, user).rows))
  {
  }

  /** With the cascade, deleting a scrapbook leaves no page, element or link behind that
      names a deleted row. */
  lemma DeleteScrapbookKeepsConsistent(t: Tables, id: Id, user: Id)
    requires Consistent(t)
    ensures Consistent(DeleteScrapbook(t, id, user).tables)
  {
    var r := DeleteScrapbook(t, id, user);
    if r.status == OK {
      var t' := r.tables;
      var gone :| gone in t.scrapbooks && gone.id == id && gone.userId == user;
      forall b | b in t.scrapbooks && b.id != id ensures b in t'.scrapbooks {
      }
      forall p | p in t'.pages ensures p.scrapbookId in ScrapbookIds(t'.scrapbooks) {
        var b :| b in t.scrapbooks && b.id == p.scrapbookId;
      }
      forall e | e in t'.elements ensures e.pageId in PageIds(t'.pages) {
        var p :| p in t.pages && p.id == e.pageId;
        assert p.scrapbookId != id;
      }
      forall l | l in t'.links ensures l.scrapbookId in ScrapbookIds(t'.scrapbooks) {
        var b :| b in t.scrapbooks && b.id == l.scrapbookId;
      }
    }
  }

  // ================================================================ PUT /pages/:pageId

  /** How a nullable string column takes a value: an absent key leaves it alone, a write
      stores a string or clears the column. */
  datatype FieldUpdate = Keep | Set(value: Option<string>)

  /** The page-level part of a layout update. */
  datatype Background = Background(color: FieldUpdate, imageUrl: FieldUpdate)

  /** What the database client accepts as the new value of a nullable string column, and
      the update it makes: a string stores it, `null` clears the column, and the update
      object `{ set: v }` does what `v` would. */
  predicate Writes(v: Json, u: FieldUpdate) {
    match v
    case JNull => u == Set(None)
    case JStr(s) => u == Set(Some(s))
    case JObj(m) =>
      && m.Keys == {"set"}
      && ((m["set"].JNull? && u == Set(None)) || (m["set"].JStr? && u == Set(Some(m["set"].s))))
    case _ => false
  }

  function ParseFieldUpdate(f: Option<Json>): (r: Result<FieldUpdate>)
    ensures f.None? ==> r == Ok(Keep)
    ensures f.Some? && r.Ok? ==> Writes(f.value, r.value)
    ensures f.Some? && r.Err? ==> forall u :: !Writes(f.value, u)
  {
    match f
    case None => Ok(Keep)
    case Some(JNull) => Ok(Set(None))
    case Some(JStr(s)) => Ok(Set(Some(s)))
    case Some(JObj(m)) =>
      if m.Keys == {"set"} && m["set"].JNull? then Ok(Set(None))
      else if m.Keys == {"set"} && m["set"].JStr? then Ok(Set(Some(m["set"].s)))
      else Err("Invalid value for a string column")
    case Some(_) => Err("Invalid value for a string column")
  }

  /** The background fields of the body go to `page.update` unchecked by any schema; the
      database client refuses a value it cannot write to a nullable string column. */
  function ParseBackground(body: Json): (r: Result<Background>)
    ensures r.Ok? <==>
      (forall key :: key in {"backgroundColor", "backgroundImageUrl"} && body.JObj? && key in body.fields ==>
         exists u :: Writes(body.fields[key], u))
    ensures r.Ok? ==> (r.value.color.Keep? <==> Field(body, "backgroundColor").None?)
    ensures r.Ok? ==> (r.value.imageUrl.Keep? <==> Field(body, "backgroundImageUrl").None?)
    ensures r.Ok? && Field(body, "backgroundColor").Some? ==>
      Writes(body.fields["backgroundColor"], r.value.color)
    ensures r.Ok? && Field(body, "backgroundImageUrl").Some? ==>
      Writes(body.fields["backgroundImageUrl"], r.value.imageUrl)
  {
    var color :- ParseFieldUpdate(Field(body, "backgroundColor"));
    var image :- ParseFieldUpdate(Field(body, "backgroundImageUrl"));
    Ok(Background(color, image))
  }

  function Updated(v: Option<string>, u: FieldUpdate): Option<string> {
    if u.Set? then u.value else v
  }

  /** `tx.page.update({ where: { id: pageId }, data: { backgroundColor, backgroundImageUrl } })`. */
  function UpdateBackground(pages: seq<Page>, pageId: Id, bg: Background): (r: seq<Page>)
    ensures |r| == |pages|
    ensures forall k :: 0 <= k < |pages| ==>
      && r[k].id == pages[k].id
      && r[k].scrapbookId == pages[k].scrapbookId
      && r[k].pageOrder == pages[k].pageOrder
      && (pages[k].id != pageId ==> r[k] == pages[k])
      && (pages[k].id == pageId ==>
            && r[k].backgroundColor == Updated(pages[k].backgroundColor, bg.color)
            && r[k].backgroundImageUrl == Updated(pages[k].backgroundImageUrl, bg.imageUrl))
  {
    seq(|pages|, k requires 0 <= k < |pages| =>
      if pages[k].id == pageId
      then pages[k].(backgroundColor := Updated(pages[k].backgroundColor, bg.color),
                     backgroundImageUrl := Updated(pages[k].backgroundImageUrl, bg.imageUrl))
      else pages[k])
  }

  /** What the body's `elements` asks for: nothing when absent or falsy, a replacement
      when it is an array, and a crash of `elements.map` for any other truthy value. */
  datatype ElementsInput = Untouched | Replace(items: seq<Json>) | NotAList

  function ElementsInputOf(body: Json): ElementsInput {
    var f := Field(body, "elements");
    if f.None? || !Truthy(f.value) then Untouched
    else if f.value.JArr? then Replace(f.value.items)
    else NotAList
  }

  /** The element values of some rows, without the page they sit on. */
  function SpecsOf(rows: seq<Element>): seq<ElementSpec> {
    seq(|rows|, k requires 0 <= k < |rows| => rows[k].spec)
  }

  /** `{ ...spec, pageId }` for every validated entry: rows all on the page which, with the
      page taken off again, give back the entries in order. */
  function Tag(pageId: Id, specs: seq<ElementSpec>): (r: seq<Element>)
    ensures forall e :: e in r ==> e.pageId == pageId
    ensures SpecsOf(r) == specs
  {
    seq(|specs|, k requires 0 <= k < |specs| => Element(pageId, specs[k]))
  }

  /** Tagging one more spec adds one more row at the end. */
  lemma TagSnoc(pageId: Id, specs: seq<ElementSpec>, spec: ElementSpec)
    ensures Tag(pageId, specs + [spec]) == Tag(pageId, specs) + [Element(pageId, spec)]
  {
  }

  lemma {:induction false} ElementsOfTag(pageId: Id, specs: seq<ElementSpec>, q: Id)
    ensures ElementsOf(Tag(pageId, specs), q) == if q == pageId then Tag(pageId, specs) else []
  {
    if specs != [] {
      var t := Tag(pageId, specs);
      assert t[1..] == Tag(pageId, specs[1..]);
      ElementsOfTag(pageId, specs[1..], q);
    }
  }

  /** The replacement element table: the page's old rows deleted, the new ones appended. */
  function ReplaceElements(elements: seq<Element>, pageId: Id, specs: seq<ElementSpec>): (r: seq<Element>)
    ensures ElementsOf(r, pageId) == Tag(pageId, specs)
    ensures forall q :: q != pageId ==> ElementsOf(r, q) == ElementsOf(elements, q)
    ensures forall e :: e in r <==> (e in elements && e.pageId != pageId) || e in Tag(pageId, specs)
  {
    var r := WithoutPage(elements, pageId) + Tag(pageId, specs);
    WithoutPageMembers(elements, pageId);
    forall q ensures ElementsOf(r, q) == if q == pageId then Tag(pageId, specs) else ElementsOf(elements, q) {
      ElementsOfConcat(WithoutPage(elements, pageId), Tag(pageId, specs), q);
      WithoutPageElements(elements, pageId, q);
      ElementsOfTag(pageId, specs, q);
    }
    r
  }

  /** The transaction of PUT /pages/:pageId (lines 244-269): the background update runs
      only when the body defines one of the two fields; the element replacement only when
      `elements` is a truthy array. A throw anywhere rolls every write back. */
  function Transaction(t: Tables, pageId: Id, body: Json): (r: Outcome)
    ensures r.status in {OK, BAD_REQUEST, SERVER_ERROR}
    ensures r.status == SERVER_ERROR <==> ParseBackground(body).Err? || ElementsInputOf(body).NotAList?
    ensures r.status == BAD_REQUEST <==>
      && ParseBackground(body).Ok?
      && ElementsInputOf(body).Replace?
      && exists k :: 0 <= k < |ElementsInputOf(body).items| && ValidateElement(ElementsInputOf(body).items[k]).Err?
    ensures r.status != OK ==> r.tables == t
    ensures r.status == OK ==>
      && r.tables.scrapbooks == t.scrapbooks
      && r.tables.songs == t.songs
      && r.tables.links == t.links
      && r.tables.pages == (if ParseBackground(body).value.color.Keep? && ParseBackground(body).value.imageUrl.Keep?
                            then t.pages else UpdateBackground(t.pages, pageId, ParseBackground(body).value))
      && r.tables.elements == (if ElementsInputOf(body).Untouched? then t.elements
                               else ReplaceElements(t.elements, pageId, ValidateElements(ElementsInputOf(body).items).value))
  {
    match ParseBackground(body)
    case Err(_) => Outcome(SERVER_ERROR, t)
    case Ok(bg) =>
      var t1 := if bg.color.Set? || bg.imageUrl.Set? then t.(pages := UpdateBackground(t.pages, pageId, bg)) else t;
      match ElementsInputOf(body)
      case Untouched => Outcome(OK, t1)
      case NotAList => Outcome(SERVER_ERROR, t)
      case Replace(items) =>
        match ValidateElements(items)
        case Err(_) => Outcome(BAD_REQUEST, t)
        case Ok(specs) => Outcome(OK, t1.(elements := ReplaceElements(t.elements, pageId, specs)))
  }

  /** PUT /pages/:pageId: the ownership check through the parent scrapbook, then one
      transaction that patches the background and, when asked, replaces every element of the
      page. Any failure inside the transaction rolls it back: the tables come back unchanged. */
  function PutPage(t: Tables, user: Id, pageId: Id, body: Json): (r: Outcome)
    requires UniqueScrapbookIds(t.scrapbooks) && UniquePageIds(t.pages)
    // a missing page and another user's page are both 403, and nothing is written
    ensures r.status == FORBIDDEN <==> !OwnsPage(t, pageId, user)
    ensures r.status == SERVER_ERROR <==>
      OwnsPage(t, pageId, user) && (ParseBackground(body).Err? || ElementsInputOf(body).NotAList?)
    ensures r.status == BAD_REQUEST <==>
      && OwnsPage(t, pageId, user) && ParseBackground(body).Ok?
      && ElementsInputOf(body).Replace?
      && exists k :: 0 <= k < |ElementsInputOf(body).items| && ValidateElement(ElementsInputOf(body).items[k]).Err?
    ensures r.status in {OK, BAD_REQUEST, FORBIDDEN, SERVER_ERROR}
    // all or nothing
    ensures r.status != OK ==> r.tables == t
    // on success: only this page's background and elements change
    ensures r.status == OK ==>
      && r.tables.scrapbooks == t.scrapbooks
      && r.tables.songs == t.songs
      && r.tables.links == t.links
      && |r.tables.pages| == |t.pages|
      && forall k :: 0 <= k < |t.pages| ==>
           var before, after := t.pages[k], r.tables.pages[k];
           && after.id == before.id
           && after.scrapbookId == before.scrapbookId
           && after.pageOrder == before.pageOrder
           && (before.id != pageId ==> after == before)
           && (before.id == pageId ==>
                 && after.backgroundColor == Updated(before.backgroundColor, ParseBackground(body).value.color)
                 && after.backgroundImageUrl == Updated(before.backgroundImageUrl, ParseBackground(body).value.imageUrl))
    ensures r.status == OK && ElementsInputOf(body).Untouched? ==> r.tables.elements == t.elements
    ensures r.status == OK && ElementsInputOf(body).Replace? ==>
      var items := ElementsInputOf(body).items;
      var now := ElementsOf(r.tables.elements, pageId);
      && |now| == |items|
      && forall k :: 0 <= k < |items| ==> now[k] == Element(pageId, ValidateElement(items[k]).value)
    ensures r.status == OK ==>
      forall q :: q != pageId ==> ElementsOf(r.tables.elements, q) == ElementsOf(t.elements, q)
  {
    if ResolvePage(t, pageId, user) != Allow then Outcome(FORBIDDEN, t)
    else Transaction(t, pageId, body)
  }

  // ---------------------------------------------------------------- properties of the layout update

  /** Deleting a page's elements from a table that holds only them empties it. */
  lemma WithoutPageAll(s: seq<Element>, pageId: Id)
    requires forall e :: e in s ==> e.pageId == pageId
    ensures WithoutPage(s, pageId) == []
  {
    WithoutPageMembers(s, pageId);
  }

  /** Deleting a page's elements from a table that has none of them changes nothing. */
  lemma {:induction false} WithoutPageAbsent(s: seq<Element>, pageId: Id)
    requires forall e :: e in s ==> e.pageId != pageId
    ensures WithoutPage(s, pageId) == s
  {
    if s != [] {
      assert forall e :: e in s[1..] ==> e in s;
      WithoutPageAbsent(s[1..], pageId);
      assert s == [s[0]] + s[1..];
    }
  }

  /** Replacing a page's elements twice with the same entries leaves the table of the first time. */
  lemma ReplaceElementsTwice(elements: seq<Element>, pageId: Id, specs: seq<ElementSpec>)
    ensures ReplaceElements(ReplaceElements(elements, pageId, specs), pageId, specs)
         == ReplaceElements(elements, pageId, specs)
  {
    var kept := WithoutPage(elements, pageId);
    var tag := Tag(pageId, specs);
    WithoutPageConcat(kept, tag, pageId);
    WithoutPageMembers(elements, pageId);
    WithoutPageAbsent(kept, pageId);
    WithoutPageAll(tag, pageId);
    assert kept + [] == kept;
  }

  lemma UpdateBackgroundTwice(pages: seq<Page>, pageId: Id, bg: Background)
    ensures UpdateBackground(UpdateBackground(pages, pageId, bg), pageId, bg) == UpdateBackground(pages, pageId, bg)
  {
    var once := UpdateBackground(pages, pageId, bg);
    var twice := UpdateBackground(once, pageId, bg);
    forall k | 0 <= k < |pages| ensures twice[k] == once[k] {
    }
  }

  /** Rewriting pages position by position without touching a key or a parent keeps the
      set of keys, their uniqueness and every parent reference. */
  lemma PageKeysKept(before: seq<Page>, after: seq<Page>, sbIds: set<Id>)
    requires |after| == |before|
    requires forall k :: 0 <= k < |before| ==> after[k].id == before[k].id && after[k].scrapbookId == before[k].scrapbookId
    requires UniquePageIds(before)
    requires forall p :: p in before ==> p.scrapbookId in sbIds
    ensures PageIds(after) == PageIds(before)
    ensures UniquePageIds(after)
    ensures forall p :: p in after ==> p.scrapbookId in sbIds
  {
    forall id | id in PageIds(before) ensures id in PageIds(after) {
      var k :| 0 <= k < |before| && before[k].id == id;
      assert after[k] in after;
    }
    forall id | id in PageIds(after) ensures id in PageIds(before) {
      var k :| 0 <= k < |after| && after[k].id == id;
      assert before[k] in before;
    }
    forall p | p in after ensures p.scrapbookId in sbIds {
      var k :| 0 <= k < |after| && after[k] == p;
      assert before[k] in before;
    }
  }

  /** A successful layout update keeps every page's key and parent. */
  lemma PutPageKeepsPageKeys(t: Tables, user: Id, pageId: Id, body: Json)
    requires Consistent(t)
    requires PutPage(t, user, pageId, body).status == OK
    ensures var t' := PutPage(t, user, pageId, body).tables;
            && PageIds(t'.pages) == PageIds(t.pages)
            && UniquePageIds(t'.pages)
            && forall p :: p in t'.pages ==> p.scrapbookId in ScrapbookIds(t'.scrapbooks)
  {
    var t' := PutPage(t, user, pageId, body).tables;
    PageKeysKept(t.pages, t'.pages, ScrapbookIds(t.scrapbooks));
  }

  /** Replacing a page's elements keeps every element on an existing page with a positive scale. */
  lemma ReplaceElementsKeepsKeys(elements: seq<Element>, pageIds: set<Id>, pageId: Id, specs: seq<ElementSpec>)
    requires pageId in pageIds
    requires forall e :: e in elements ==> e.pageId in pageIds && e.spec.scale > 0.0
    requires forall k :: 0 <= k < |specs| ==> specs[k].scale > 0.0
    ensures forall e :: e in ReplaceElements(elements, pageId, specs) ==> e.pageId in pageIds && e.spec.scale > 0.0
  {
    forall e | e in ReplaceElements(elements, pageId, specs) ensures e.pageId in pageIds && e.spec.scale > 0.0 {
      if e in Tag(pageId, specs) {
        var k :| 0 <= k < |specs| && Tag(pageId, specs)[k] == e;
      }
    }
  }

  /** A successful layout update keeps the database consistent: every foreign key still names
      a row, and every element on the page passed the element schema. */
  lemma PutPageKeepsConsistent(t: Tables, user: Id, pageId: Id, body: Json)
    requires Consistent(t)
    ensures Consistent(PutPage(t, user, pageId, body).tables)
  {
    var r := PutPage(t, user, pageId, body);
    if r.status == OK {
      var t' := r.tables;
      PutPageKeepsPageKeys(t, user, pageId, body);
      var p :| p in t.pages && p.id == pageId && OwnsScrapbook(t, p.scrapbookId, user);
      assert pageId in PageIds(t'.pages);
      if ElementsInputOf(body).Replace? {
        var items := ElementsInputOf(body).items;
        var specs := ValidateElements(items).value;
        assert forall k :: 0 <= k < |specs| ==> specs[k].scale > 0.0 by {
          forall k | 0 <= k < |specs| ensures specs[k].scale > 0.0 {
            assert ValidateElement(items[k]).Ok?;
          }
        }
        ReplaceElementsKeepsKeys(t.elements, PageIds(t.pages), pageId, specs);
      }
    }
  }

  /** A saved page still belongs to the user who saved it. */
  lemma PutPageKeepsOwnership(t: Tables, user: Id, pageId: Id, body: Json)
    requires Consistent(t)
    requires PutPage(t, user, pageId, body).status == OK
    ensures OwnsPage(PutPage(t, user, pageId, body).tables, pageId, user)
  {
    var t1 := PutPage(t, user, pageId, body).tables;
    var p :| p in t.pages && p.id == pageId && OwnsScrapbook(t, p.scrapbookId, user);
    var k :| 0 <= k < |t.pages| && t.pages[k] == p;
    assert t1.pages[k] in t1.pages;
  }

  /** Running the same successful transaction again changes nothing more. */
  lemma TransactionTwice(t: Tables, pageId: Id, body: Json)
    requires Transaction(t, pageId, body).status == OK
    ensures Transaction(Transaction(t, pageId, body).tables, pageId, body) == Transaction(t, pageId, body)
  {
    var bg := ParseBackground(body).value;
    if !(bg.color.Keep? && bg.imageUrl.Keep?) {
      UpdateBackgroundTwice(t.pages, pageId, bg);
    }
    if ElementsInputOf(body).Replace? {
      ReplaceElementsTwice(t.elements, pageId, ValidateElements(ElementsInputOf(body).items).value);
    }
  }

  /** Sending the same layout twice in a row leaves the same tables as sending it once. */
  lemma PutPageIdempotent(t: Tables, user: Id, pageId: Id, body: Json)
    requires Consistent(t)
    ensures Consistent(PutPage(t, user, pageId, body).tables)
    ensures var once := PutPage(t, user, pageId, body);
            PutPage(once.tables, user, pageId, body) == once
  {
    PutPageKeepsConsistent(t, user, pageId, body);
    var once := PutPage(t, user, pageId, body);
    if once.status == OK {
      var t1 := once.tables;
      PutPageKeepsOwnership(t, user, pageId, body);
      assert once == Transaction(t, pageId, body);
      assert PutPage(t1, user, pageId, body) == Transaction(t1, pageId, body);
      TransactionTwice(t, pageId, body);
    }
  }

  /** The body an editor sends to save a page whose layout it has not changed: the page's
      elements as stored, and no background keys. */
  function ResaveBody(elements: seq<Element>): (body: Json)
    ensures ParseBackground(body) == Ok(Background(Keep, Keep))
    ensures ElementsInputOf(body).Replace?
    ensures |ElementsInputOf(body).items| == |elements|
    ensures forall k :: 0 <= k < |elements| ==> ElementsInputOf(body).items[k] == ElementJson(elements[k].spec)
  {
    JObj(map["elements" := JArr(seq(|elements|, k requires 0 <= k < |elements| => ElementJson(elements[k].spec)))])
  }

  /** Every stored element passes the schema again when it is sent back as it is. */
  lemma ResaveValidates(elements: seq<Element>)
    requires forall e :: e in elements ==> e.spec.scale > 0.0
    ensures forall k :: 0 <= k < |elements| ==>
      ValidateElement(ElementsInputOf(ResaveBody(elements)).items[k]) == Ok(elements[k].spec)
  {
    forall k | 0 <= k < |elements|
      ensures ValidateElement(ElementsInputOf(ResaveBody(elements)).items[k]) == Ok(elements[k].spec)
    {
      assert elements[k] in elements;
      ElementRoundTrip(elements[k].spec);
    }
  }

  /** Saving a page's own elements back to it keeps every page's elements as they were, and
      writes no other row. */
  lemma ResaveKeepsLayout(t: Tables, user: Id, pageId: Id)
    requires Consistent(t)
    requires OwnsPage(t, pageId, user)
    ensures var r := PutPage(t, user, pageId, ResaveBody(ElementsOf(t.elements, pageId)));
      && r.status == OK
      && r.tables.pages == t.pages
      && forall q :: ElementsOf(r.tables.elements, q) == ElementsOf(t.elements, q)
  {
    var stored := ElementsOf(t.elements, pageId);
    var body := ResaveBody(stored);
    var items := ElementsInputOf(body).items;
    ResaveValidates(stored);
    assert ValidateElements(items).Ok?;
    var specs := ValidateElements(items).value;
    assert Tag(pageId, specs) == stored by {
      forall k | 0 <= k < |stored| ensures Tag(pageId, specs)[k] == stored[k] {
        assert stored[k] in stored;
      }
    }
    var after := t.(elements := ReplaceElements(t.elements, pageId, specs));
    assert ResolvePage(t, pageId, user) == Allow;
    assert Transaction(t, pageId, body) == Outcome(OK, after);
    assert PutPage(t, user, pageId, body) == Outcome(OK, after);
    forall q ensures ElementsOf(after.elements, q) == ElementsOf(t.elements, q) {
      if q == pageId {
        assert ElementsOf(after.elements, q) == Tag(pageId, specs);
      }
    }
  }

  /** Sending only a colour to an owned page stores exactly that colour on the page and
      changes nothing else: the image and the elements stay as they were. */
  lemma PutColourSetsColour(t: Tables, user: Id, pageId: Id, colour: string)
    requires UniqueScrapbookIds(t.scrapbooks) && UniquePageIds(t.pages)
    requires OwnsPage(t, pageId, user)
    ensures var r := PutPage(t, user, pageId, JObj(map["backgroundColor" := JStr(colour)]));
      && r.status == OK
      && r.tables.elements == t.elements
      && |r.tables.pages| == |t.pages|
      && forall k :: 0 <= k < |t.pages| ==>
           r.tables.pages[k] == if t.pages[k].id == pageId then t.pages[k].(backgroundColor := Some(colour)) else t.pages[k]
  {
    var body := JObj(map["backgroundColor" := JStr(colour)]);
    assert Writes(body.fields["backgroundColor"], Set(Some(colour)));
    assert ElementsInputOf(body).Untouched?;
  }
}
