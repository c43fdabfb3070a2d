/** The tables the routes read and write, the lookups they make (`findUnique`,
    `findMany` with a `where`), and the ownership chain that gates every write. */
module Database {
  import opened Common
  import opened Json
  import opened Schemas

  datatype Scrapbook = Scrapbook(
    id: Id,
    userId: Id,
    title: string,
    themeCategory: string,
    isPrivate: bool,
    updatedAt: int)

  datatype Page = Page(
    id: Id,
    scrapbookId: Id,
    pageOrder: int,
    backgroundColor: Option<string>,
    backgroundImageUrl: Option<string>)

  /** A row of the element table: a validated element filed under a page. */
  datatype Element = Element(pageId: Id, spec: ElementSpec)

  datatype Song = Song(id: Id, title: string, artist: string, fileUrl: string, durationSeconds: int)

  /** A row of the scrapbook-song association table. */
  datatype SongLink = SongLink(scrapbookId: Id, songId: Id)

  /** The whole database, each table in insertion order. */
  datatype Tables = Tables(
    scrapbooks: seq<Scrapbook>,
    pages: seq<Page>,
    elements: seq<Element>,
    songs: seq<Song>,
    links: seq<SongLink>)

  // ---------------------------------------------------------------- keys

  function ScrapbookIds(s: seq<Scrapbook>): set<Id> { set b | b in s :: b.id }
  function PageIds(s: seq<Page>): set<Id> { set p | p in s :: p.id }
  function SongIds(s: seq<Song>): set<Id> { set g | g in s :: g.id }

  ghost predicate UniqueScrapbookIds(s: seq<Scrapbook>) {
    forall i, j :: 0 <= i < j < |s| ==> s[i].id != s[j].id
  }
  ghost predicate UniquePageIds(s: seq<Page>) {
    forall i, j :: 0 <= i < j < |s| ==> s[i].id != s[j].id
  }
  ghost predicate UniqueSongIds(s: seq<Song>) {
    forall i, j :: 0 <= i < j < |s| ==> s[i].id != s[j].id
  }

  /** What the database guarantees: primary keys are unique, every foreign key names an
      existing row, and every stored element passed `createElementSchema` (positive scale). */
  ghost predicate Consistent(t: Tables) {
    && UniqueScrapbookIds(t.scrapbooks)
    && UniquePageIds(t.pages)
    && UniqueSongIds(t.songs)
    && (forall p :: p in t.pages ==> p.scrapbookId in ScrapbookIds(t.scrapbooks))
    && (forall e :: e in t.elements ==> e.pageId in PageIds(t.pages) && e.spec.scale > 0.0)
    && (forall l :: l in t.links ==> l.scrapbookId in ScrapbookIds(t.scrapbooks) && l.songId in SongIds(t.songs))
  }

  /** Appending an element on an existing page, with a positive scale, keeps the tables consistent. */
  lemma AppendElementKeepsConsistent(t: Tables, row: Element)
    requires Consistent(t)
    requires row.pageId in PageIds(t.pages) && row.spec.scale > 0.0
    ensures Consistent(t.(elements := t.elements + [row]))
  {
    assert forall e :: e in t.elements + [row] ==> e in t.elements || e == row;
  }

  // ---------------------------------------------------------------- findUnique

  /** `prisma.scrapbook.findUnique({ where: { id } })`, as the row's position. */
  function FindScrapbook(s: seq<Scrapbook>, id: Id): (r: Option<nat>)
    ensures r.Some? ==> r.value < |s| && s[r.value].id == id
    ensures r.None? <==> id !in ScrapbookIds(s)
  {
    if s == [] then None
    else if s[0].id == id then Some(0)
    else
      var r := FindScrapbook(s[1..], id);
      assert s == [s[0]] + s[1..];
      if r.Some? then Some(r.value + 1) else None
  }

  /** `prisma.page.findUnique({ where: { id } })`, as the row's position. */
  function FindPage(s: seq<Page>, id: Id): (r: Option<nat>)
    ensures r.Some? ==> r.value < |s| && s[r.value].id == id
    ensures r.None? <==> id !in PageIds(s)
  {
    if s == [] then None
    else if s[0].id == id then Some(0)
    else
      var r := FindPage(s[1..], id);
      assert s == [s[0]] + s[1..];
      if r.Some? then Some(r.value + 1) else None
  }

  /** `prisma.song.findUnique({ where: { id } })`, as the row's position. */
  function FindSong(s: seq<Song>, id: Id): (r: Option<nat>)
    ensures r.Some? ==> r.value < |s| && s[r.value].id == id
    ensures r.None? <==> id !in SongIds(s)
  {
    if s == [] then None
    else if s[0].id == id then Some(0)
    else
      var r := FindSong(s[1..], id);
      assert s == [s[0]] + s[1..];
      if r.Some? then Some(r.value + 1) else None
  }

  // ---------------------------------------------------------------- findMany / deleteMany filters

  /** The elements filed under `pageId`, in table order. */
  function ElementsOf(s: seq<Element>, pageId: Id): (r: seq<Element>)
    ensures forall e :: e in r <==> e in s && e.pageId == pageId
    ensures |r| <= |s|
  {
    if s == [] then []
    else (if s[0].pageId == pageId then [s[0]] else []) + ElementsOf(s[1..], pageId)
  }

  /** Rows have no key of their own, so equal rows are distinct rows: the page keeps every
      copy of each of its rows, and nothing else. */
  lemma {:induction false} ElementsOfCounts(s: seq<Element>, pageId: Id)
    ensures forall e :: multiset(ElementsOf(s, pageId))[e] == if e.pageId == pageId then multiset(s)[e] else 0
  {
    if s != [] {
      ElementsOfCounts(s[1..], pageId);
      assert s == [s[0]] + s[1..];
    }
  }

  /** The element table once `deleteMany({ where: { pageId } })` has run. */
  function WithoutPage(s: seq<Element>, pageId: Id): (r: seq<Element>)
  {
    if s == [] then []
    else (if s[0].pageId != pageId then [s[0]] else []) + WithoutPage(s[1..], pageId)
  }

  lemma {:induction false} ElementsOfConcat(a: seq<Element>, b: seq<Element>, q: Id)
    ensures ElementsOf(a + b, q) == ElementsOf(a, q) + ElementsOf(b, q)
  {
    if a == [] {
      assert a + b == b;
    } else {
      var head := if a[0].pageId == q then [a[0]] else [];
      var ab := a + b;
      assert ab[0] == a[0] && ab[1..] == a[1..] + b;
      assert ElementsOf(ab, q) == head + ElementsOf(a[1..] + b, q);
      ElementsOfConcat(a[1..], b, q);
      assert ElementsOf(a, q) == head + ElementsOf(a[1..], q);
      assert head + (ElementsOf(a[1..], q) + ElementsOf(b, q)) == (head + ElementsOf(a[1..], q)) + ElementsOf(b, q);
    }
  }

  lemma {:induction false} WithoutPageMembers(s: seq<Element>, pageId: Id)
    ensures forall e :: e in WithoutPage(s, pageId) <==> e in s && e.pageId != pageId
  {
    if s != [] {
      WithoutPageMembers(s[1..], pageId);
      assert forall e :: e in s <==> e == s[0] || e in s[1..];
    }
  }

  lemma {:induction false} WithoutPageConcat(a: seq<Element>, b: seq<Element>, pageId: Id)
    ensures WithoutPage(a + b, pageId) == WithoutPage(a, pageId) + WithoutPage(b, pageId)
  {
    if a == [] {
      assert a + b == b;
    } else {
      var head := if a[0].pageId != pageId then [a[0]] else [];
      assert (a + b)[0] == a[0];
      assert (a + b)[1..] == a[1..] + b;
      assert WithoutPage(a + b, pageId) == head + WithoutPage(a[1..] + b, pageId);
      WithoutPageConcat(a[1..], b, pageId);
      assert WithoutPage(a, pageId) == head + WithoutPage(a[1..], pageId);
    }
  }

  /** Deleting a page's elements empties that page and leaves every other page's
      elements, in order, as they were. */
  lemma {:induction false} WithoutPageElements(s: seq<Element>, pageId: Id, q: Id)
    ensures ElementsOf(WithoutPage(s, pageId), q) == if q == pageId then [] else ElementsOf(s, q)
  {
    if s != [] {
      WithoutPageElements(s[1..], pageId, q);
      var head := if s[0].pageId != pageId then [s[0]] else [];
      ElementsOfConcat(head, WithoutPage(s[1..], pageId), q);
    }
  }

  /** The pages of scrapbook `sbId`, in table order. */
  function PagesOf(s: seq<Page>, sbId: Id): (r: seq<Page>)
    ensures forall p :: p in r <==> p in s && p.scrapbookId == sbId
  {
    if s == [] then []
    else (if s[0].scrapbookId == sbId then [s[0]] else []) + PagesOf(s[1..], sbId)
  }

  /** The song links of scrapbook `sbId`, in table order. */
  function LinksOf(s: seq<SongLink>, sbId: Id): (r: seq<SongLink>)
    ensures forall l :: l in r <==> l in s && l.scrapbookId == sbId
  {
    if s == [] then []
    else (if s[0].scrapbookId == sbId then [s[0]] else []) + LinksOf(s[1..], sbId)
  }

  // ---------------------------------------------------------------- ownership chain

  /** The result of walking an ownership chain: the caller owns it, someone else does,
      or a link of the chain is missing. */
  datatype Access = Allow | Deny | Missing

  ghost predicate OwnsScrapbook(t: Tables, id: Id, user: Id) {
    exists b :: b in t.scrapbooks && b.id == id && b.userId == user
  }

  ghost predicate OwnsPage(t: Tables, pageId: Id, user: Id) {
    exists p :: p in t.pages && p.id == pageId && OwnsScrapbook(t, p.scrapbookId, user)
  }

  /** Scrapbook -> User. */
  function ResolveScrapbook(t: Tables, id: Id, user: Id): (r: Access)
    requires UniqueScrapbookIds(t.scrapbooks)
    ensures r == Missing <==> id !in ScrapbookIds(t.scrapbooks)
    ensures r == Allow <==> OwnsScrapbook(t, id, user)
  {
    match FindScrapbook(t.scrapbooks, id)
    case None => Missing
    case Some(i) => if t.scrapbooks[i].userId == user then Allow else Deny
  }

  /** Page -> Scrapbook -> User. */
  function ResolvePage(t: Tables, pageId: Id, user: Id): (r: Access)
    requires UniqueScrapbookIds(t.scrapbooks) && UniquePageIds(t.pages)
    ensures r == Missing ==> pageId !in PageIds(t.pages) || !(exists p :: p in t.pages && p.id == pageId && p.scrapbookId in ScrapbookIds(t.scrapbooks))
    ensures pageId !in PageIds(t.pages) ==> r == Missing
    ensures r == Allow <==> OwnsPage(t, pageId, user)
  {
    match FindPage(t.pages, pageId)
    case None => Missing
    case Some(i) => ResolveScrapbook(t, t.pages[i].scrapbookId, user)
  }
}
