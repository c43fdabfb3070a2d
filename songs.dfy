/** The logic of backend/src/routes/songs.ts: the song schema and the search of GET /songs. */
module Songs {
  import opened Common
  import opened Json
  import opened Schemas
  import opened Sorting
  import opened Database

  // ================================================================ createSongSchema

  datatype NewSong = NewSong(title: string, artist: string, fileUrl: string, durationSeconds: int)

  /** `z.number().int().positive()`. */
  function PositiveInt(f: Option<Json>): Result<int> {
    var n :- ReqInt(f);
    if n > 0 then Ok(n) else Err("Number must be greater than 0")
  }

  /** `createSongSchema`: title and artist of 1 to 200 characters, a URL, and a positive
      whole number of seconds. */
  function ValidateCreateSong(body: Json, fmt: Formats): (r: Result<NewSong>)
    ensures r.Ok? <==>
      && body.JObj?
      && "title" in body.fields && body.fields["title"].JStr? && 1 <= Utf16Length(body.fields["title"].s) <= 200
      && "artist" in body.fields && body.fields["artist"].JStr? && 1 <= Utf16Length(body.fields["artist"].s) <= 200
      && "fileUrl" in body.fields && body.fields["fileUrl"].JStr? && fmt.isUrl(body.fields["fileUrl"].s)
      && "durationSeconds" in body.fields && body.fields["durationSeconds"].JNum?
      && IsInteger(body.fields["durationSeconds"].n) && body.fields["durationSeconds"].n > 0.0
    ensures r.Ok? ==>
      && r.value.title == body.fields["title"].s
      && r.value.artist == body.fields["artist"].s
      && r.value.fileUrl == body.fields["fileUrl"].s
      && r.value.durationSeconds > 0
      && r.value.durationSeconds as real == body.fields["durationSeconds"].n
  {
    if !body.JObj? then Err("Expected object") else
    var title :- Title(Field(body, "title"));
    var artist :- Title(Field(body, "artist"));
    var url :- ReqString(Field(body, "fileUrl"));
    if !fmt.isUrl(url) then Err("Invalid url") else
    var seconds :- PositiveInt(Field(body, "durationSeconds"));
    Ok(NewSong(title, artist, url, seconds))
  }

  // ================================================================ case-insensitive substring

  /** ASCII case folding. */
  function Lower(c: char): char {
    if 'A' <= c <= 'Z' then (c as int + 32) as char else c
  }

  function LowerAll(s: string): string
  {
    seq(|s|, k requires 0 <= k < |s| => Lower(s[k]))
  }

  lemma LowerAllTwice(s: string)
    ensures LowerAll(LowerAll(s)) == LowerAll(s)
  {
  }

  /** `needle` occurs in `hay` starting at position `i`. */
  predicate OccursAt(hay: string, needle: string, i: int) {
    0 <= i && i + |needle| <= |hay| && hay[i..i + |needle|] == needle
  }

  /** `needle` is a prefix of `hay` or of one of its suffixes. */
  predicate Contains(hay: string, needle: string) {
    needle <= hay || (hay != [] && Contains(hay[1..], needle))
  }

  /** Occurring at position 0 is being a prefix. */
  lemma OccursAtStart(hay: string, needle: string)
    ensures OccursAt(hay, needle, 0) <==> needle <= hay
  {
    if |needle| <= |hay| {
      assert hay[0..|needle|] == hay[..|needle|];
    }
  }

  /** The occurrences in the tail are the occurrences past position 0, shifted by one. */
  lemma OccursInTail(hay: string, needle: string)
    requires hay != []
    ensures (exists i :: OccursAt(hay[1..], needle, i)) <==> exists i :: i > 0 && OccursAt(hay, needle, i)
  {
    var tail := hay[1..];
    forall i | OccursAt(tail, needle, i) ensures OccursAt(hay, needle, i + 1) {
      assert hay[i + 1..i + 1 + |needle|] == tail[i..i + |needle|];
    }
    forall i | i > 0 && OccursAt(hay, needle, i) ensures OccursAt(tail, needle, i - 1) {
      assert tail[i - 1..i - 1 + |needle|] == hay[i..i + |needle|];
    }
  }

  /** Contains means: occurs at some position. */
  lemma {:induction false} ContainsIffOccurs(hay: string, needle: string)
    ensures Contains(hay, needle) <==> exists i :: OccursAt(hay, needle, i)
  {
    OccursAtStart(hay, needle);
    if !(needle <= hay) && hay != [] {
      assert Contains(hay, needle) == Contains(hay[1..], needle);
      ContainsIffOccurs(hay[1..], needle);
      OccursInTail(hay, needle);
    }
  }

  /** `contains: term, mode: 'insensitive'`. */
  predicate ContainsInsensitive(hay: string, needle: string) {
    Contains(LowerAll(hay), LowerAll(needle))
  }

  /** `OR: [{ title: { contains } }, { artist: { contains } }]`. */
  predicate MatchesSearch(g: Song, term: string) {
    ContainsInsensitive(g.title, term) || ContainsInsensitive(g.artist, term)
  }

  function Matching(songs: seq<Song>, term: string): (r: seq<Song>)
    ensures forall g :: g in r <==> g in songs && MatchesSearch(g, term)
    ensures multiset(r) <= multiset(songs)
  {
    if songs == [] then []
    else
      assert songs == [songs[0]] + songs[1..];
      (if MatchesSearch(songs[0], term) then [songs[0]] else []) + Matching(songs[1..], term)
  }

  // ================================================================ orderBy: { title: 'asc' }

  /** Lexicographic order of strings, character by character. */
  predicate LexLe(a: string, b: string) {
    a == [] || (b != [] && (a[0] < b[0] || (a[0] == b[0] && LexLe(a[1..], b[1..]))))
  }

  lemma {:induction false} LexLeTotal(a: string, b: string)
    ensures LexLe(a, b) || LexLe(b, a)
  {
    if a != [] && b != [] && a[0] == b[0] {
      LexLeTotal(a[1..], b[1..]);
    }
  }

  lemma {:induction false} LexLeTransitive(a: string, b: string, c: string)
    requires LexLe(a, b) && LexLe(b, c)
    ensures LexLe(a, c)
  {
    if a != [] && a[0] == b[0] && b[0] == c[0] {
      LexLeTransitive(a[1..], b[1..], c[1..]);
    }
  }

  predicate TitleLe(a: Song, b: Song) {
    LexLe(a.title, b.title)
  }

  lemma TitleOrderIsPreorder()
    ensures Total(TitleLe) && Transitive(TitleLe)
  {
    forall a: Song, b: Song ensures TitleLe(a, b) || TitleLe(b, a) {
      LexLeTotal(a.title, b.title);
    }
    forall a: Song, b: Song, c: Song | TitleLe(a, b) && TitleLe(b, c) ensures TitleLe(a, c) {
      LexLeTransitive(a.title, b.title, c.title);
    }
  }

  // ================================================================ GET /songs

  /** GET /songs?search=term: with no term or an empty one every song; otherwise the songs
      whose title or artist contains the term, ignoring case; by title. */
  function SearchSongs(songs: seq<Song>, search: Option<string>): (r: seq<Song>)
    ensures search.None? || search.value == "" ==> multiset(r) == multiset(songs)
    ensures search.Some? && search.value != "" ==> multiset(r) == multiset(Matching(songs, search.value))
    ensures forall g :: g in r ==> g in songs
    ensures search.Some? && search.value != "" ==> forall g :: g in r ==> MatchesSearch(g, search.value)
    ensures search.Some? && search.value != "" ==>
      forall g :: g in songs && MatchesSearch(g, search.value) ==> g in r
    ensures Sorted(r, TitleLe)
  {
    TitleOrderIsPreorder();
    var found := if search.None? || search.value == "" then songs else Matching(songs, search.value);
    var r := SortBy(found, TitleLe);
    assert forall g :: g in r <==> g in multiset(found);
    r
  }

  /** The search ignores the case of the term as well as of the stored text. */
  lemma SearchIgnoresTermCase(songs: seq<Song>, term: string)
    ensures SearchSongs(songs, Some(term)) == SearchSongs(songs, Some(LowerAll(term)))
  {
    LowerAllTwice(term);
    assert |LowerAll(term)| == |term|;
    MatchingIgnoresTermCase(songs, term);
  }

  lemma {:induction false} MatchingIgnoresTermCase(songs: seq<Song>, term: string)
    ensures Matching(songs, term) == Matching(songs, LowerAll(term))
  {
    LowerAllTwice(term);
    if songs != [] {
      MatchingIgnoresTermCase(songs[1..], term);
    }
  }
}
