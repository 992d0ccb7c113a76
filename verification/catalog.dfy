/**
 The package finder of the home page: a fixed list of apps and games, searched by
 a case-insensitive term, narrowed by a filter button, ordered by the sort menu, and
 a redirect link per package.
 */
module Catalog {
  import opened Text
  import opened Options
  import UriComponent
  import StableSort

  datatype Kind = App | Game

  /** The `type` field as the page stores it. */
  function KindName(k: Kind): string {
    match k
    case App => "app"
    case Game => "game"
  }

  /** One record of `packageAppsAndGames`; `rating` is in tenths of a star. */
  datatype Entry = Entry(
    id: nat,
    name: string,
    packageName: string,
    description: string,
    kind: Kind,
    category: string,
    rating: nat,
    downloads: string,
    developer: string,
    popularity: int)

  /** The twelve seeded records of `packageAppsAndGames`. */
  const WhatsApp := Entry(1, "WhatsApp Messenger", "com.whatsapp", "Aplicación de mensajería instantánea",
        App, "Comunicación", 45, "5B+", "WhatsApp LLC", 100)
  const CandyCrush := Entry(2, "Candy Crush Saga", "com.king.candycrushsaga", "Juego de puzle con dulces",
        Game, "Puzzle", 46, "1B+", "King", 95)
  const Spotify := Entry(3, "Spotify - Música y Podcasts", "com.spotify.music", "Escucha millones de canciones",
        App, "Música", 48, "1B+", "Spotify AB", 90)
  const Minecraft := Entry(4, "Minecraft", "com.mojang.minecraftpe", "Juego de aventuras y construcción",
        Game, "Aventura", 47, "500M+", "Mojang", 85)
  const Instagram := Entry(5, "Instagram", "com.instagram.android", "Comparte fotos y videos",
        App, "Redes Sociales", 44, "5B+", "Instagram", 98)
  const AmongUs := Entry(6, "Among Us", "com.innersloth.amongus", "Encuentra al impostor",
        Game, "Estrategia", 45, "500M+", "InnerSloth LLC", 88)
  const PhotoshopExpress := Entry(7, "Adobe Photoshop Express", "com.adobe.psmobile", "Editor de fotos",
        App, "Foto", 43, "500M+", "Adobe", 80)
  const Asphalt9 := Entry(8, "Asphalt 9: Legends", "com.gameloft.android.ANMP.GloftA9HM", "Juego de carreras",
        Game, "Carreras", 46, "100M+", "Gameloft SE", 82)
  const Netflix := Entry(9, "Netflix", "com.netflix.mediaclient", "Servicio de streaming",
        App, "Entretenimiento", 46, "1B+", "Netflix, Inc.", 92)
  const ClashOfClans := Entry(10, "Clash of Clans", "com.supercell.clashofclans", "Juego de estrategia",
        Game, "Estrategia", 47, "500M+", "Supercell", 89)
  const Telegram := Entry(11, "Telegram", "org.telegram.messenger", "Mensajería rápida y segura",
        App, "Comunicación", 43, "500M+", "Telegram FZ-LLC", 87)
  const SubwaySurfers := Entry(12, "Subway Surfers", "com.kiloo.subwaysurf", "Juego de carreras sin fin",
        Game, "Carreras", 45, "1B+", "SYBO Games", 90)

  /** The seeded records in their order on the page. */
  const Seed: seq<Entry> := [
    WhatsApp, CandyCrush, Spotify, Minecraft, Instagram, AmongUs,
    PhotoshopExpress, Asphalt9, Netflix, ClashOfClans, Telegram, SubwaySurfers]

  /** Records numbered consecutively from `k` are pairwise different: each occurs at most once. */
  lemma {:induction false} NumberedOnce(s: seq<Entry>, k: int)
    requires forall i :: 0 <= i < |s| ==> s[i].id == k + i
    ensures forall e :: multiset(s)[e] <= 1
    decreases |s|
  {
    if s != [] {
      var rest := s[1..];
      NumberedOnce(rest, k + 1);
      assert s == [s[0]] + rest;
      assert s[0] !in rest by {
        forall j | 0 <= j < |rest|
          ensures rest[j] != s[0]
        {
          assert rest[j].id == k + 1 + j;
        }
      }
    }
  }

  /** The seeded records carry the ids 1 to 12 in order, so none of them is listed twice. */
  lemma SeedOnce()
    ensures forall i :: 0 <= i < |Seed| ==> Seed[i].id == i + 1
    ensures forall e :: multiset(Seed)[e] <= 1
  {
    NumberedOnce(Seed, 1);
  }

  // ---------------------------------------------------------------------------
  // Search and filter
  // ---------------------------------------------------------------------------

  /** The filter buttons: `all`, `popular`, or any other value compared with `type`. */
  datatype Filter = All | Popular | OfType(t: string)

  function ParseFilter(f: string): (r: Filter)
    ensures r == All <==> f == "all"
    ensures r == Popular <==> f == "popular"
    ensures r.OfType? ==> r.t == f
  {
    if f == "all" then All else if f == "popular" then Popular else OfType(f)
  }

  /** The term is empty or found, ignoring case, in the name, description or package name. */
  predicate MatchesSearch(term: string, e: Entry) {
    || term == ""
    || IncludesFolded(e.name, term)
    || IncludesFolded(e.description, term)
    || IncludesFolded(e.packageName, term)
  }

  predicate MatchesFilter(f: Filter, e: Entry) {
    match f
    case All => true
    case Popular => e.popularity > 90
    case OfType(t) => KindName(e.kind) == t
  }

  /** The test `performSearch` hands to `Array.prototype.filter`. */
  predicate Keep(term: string, f: Filter, e: Entry) {
    MatchesSearch(term, e) && MatchesFilter(f, e)
  }

  /** `a` is `b` with some elements left out, the rest in their order. */
  predicate IsSubsequence<T(==)>(a: seq<T>, b: seq<T>)
    decreases |b|
  {
    || a == []
    || (b != [] && a[0] == b[0] && IsSubsequence(a[1..], b[1..]))
    || (b != [] && IsSubsequence(a, b[1..]))
  }

  /** The filter step: the entries of `s` that `Keep` accepts, in order (see `SelectSpec`). */
  function Select(s: seq<Entry>, term: string, f: Filter): (r: seq<Entry>)
    ensures |r| <= |s|
  {
    if s == [] then []
    else
      var rest := Select(s[1..], term, f);
      assert s == [s[0]] + s[1..];
      if Keep(term, f, s[0]) then [s[0]] + rest else rest
  }

  /** The kept entries of `s`, each as often as in `s`, and nothing else. */
  lemma {:induction false} SelectSpec(s: seq<Entry>, term: string, f: Filter)
    ensures forall e :: e in Select(s, term, f) ==> e in s && Keep(term, f, e)
    ensures forall e :: e in s && Keep(term, f, e) ==> e in Select(s, term, f)
    ensures forall e :: multiset(Select(s, term, f))[e]
                     == if Keep(term, f, e) then multiset(s)[e] else 0
  {
    if s != [] {
      SelectSpec(s[1..], term, f);
      assert s == [s[0]] + s[1..];
    }
  }

  /** Filtering keeps the catalog order. */
  lemma {:induction false} SelectIsSubsequence(s: seq<Entry>, term: string, f: Filter)
    ensures IsSubsequence(Select(s, term, f), s)
  {
    if s != [] {
      SelectIsSubsequence(s[1..], term, f);
      var rest := Select(s[1..], term, f);
      if Keep(term, f, s[0]) {
        assert ([s[0]] + rest)[1..] == rest;
      }
    }
  }

  /** Filtering a concatenation filters each part. */
  lemma {:induction false} SelectAppend(a: seq<Entry>, b: seq<Entry>, term: string, f: Filter)
    ensures Select(a + b, term, f) == Select(a, term, f) + Select(b, term, f)
  {
    if a != [] {
      SelectAppend(a[1..], b, term, f);
      assert (a + b)[1..] == a[1..] + b;
      assert (a + b)[0] == a[0];
    } else {
      assert a + b == b;
    }
  }

  /** With no term and the `all` filter, every entry passes, in order. */
  lemma {:induction false} SelectEverything(s: seq<Entry>)
    ensures Select(s, "", All) == s
  {
    if s != [] {
      SelectEverything(s[1..]);
      assert [s[0]] + s[1..] == s;
    }
  }

  /** A filter value other than `app` and `game` matches the type of no record. */
  lemma OfTypeMatchesOnlyKinds(t: string, e: Entry)
    requires t != "app" && t != "game"
    ensures !MatchesFilter(OfType(t), e)
  {
  }

  // ---------------------------------------------------------------------------
  // Sorting
  // ---------------------------------------------------------------------------

  /** The sort menu: `popularity`, `rating`, and anything else keeps relevance order. */
  datatype SortKey = Relevance | ByPopularity | ByRating

  function ParseSortKey(k: string): (r: SortKey)
    ensures r == ByPopularity <==> k == "popularity"
    ensures r == ByRating <==> k == "rating"
  {
    if k == "popularity" then ByPopularity else if k == "rating" then ByRating else Relevance
  }

  function Popularity(e: Entry): int { e.popularity }
  function Rating(e: Entry): int { e.rating }

  /** The key a sort orders by; relevance has none. */
  function SortField(k: SortKey): Entry -> int
    requires k != Relevance
  {
    if k == ByPopularity then Popularity else Rating
  }

  /** `sortResults`: a sorted copy for `popularity` and `rating`, the input itself otherwise. */
  function SortResults(res: seq<Entry>, k: SortKey): seq<Entry> {
    if k == Relevance then res else StableSort.SortDesc(res, SortField(k))
  }

  /**
   What `sortResults` promises: the same entries, as often; relevance keeps the
   order; the other keys order by descending key and keep ties in input order.
   */
  lemma SortResultsSpec(res: seq<Entry>, k: SortKey)
    ensures multiset(SortResults(res, k)) == multiset(res)
    ensures k == Relevance ==> SortResults(res, k) == res
    ensures k != Relevance ==> StableSort.Descending(SortResults(res, k), SortField(k))
    ensures k != Relevance ==> forall v :: StableSort.WithKey(SortResults(res, k), SortField(k), v)
                                        == StableSort.WithKey(res, SortField(k), v)
  {
    if k != Relevance {
      StableSort.SortDescPermutes(res, SortField(k));
      StableSort.SortDescIsDescending(res, SortField(k));
      forall v {
        StableSort.SortDescIsStable(res, SortField(k), v);
      }
    }
  }

  /** Sorting a sorted result again changes nothing. */
  lemma SortResultsIdempotent(res: seq<Entry>, k: SortKey)
    ensures SortResults(SortResults(res, k), k) == SortResults(res, k)
  {
    if k != Relevance {
      StableSort.SortDescIdempotent(res, SortField(k));
    }
  }

  // ---------------------------------------------------------------------------
  // performSearch
  // ---------------------------------------------------------------------------

  /** `performSearch` on the seeded list, once its timer has fired: filter, then sort. */
  function PerformSearch(term: string, filter: string, sort: string): seq<Entry> {
    SortResults(Select(Seed, term, ParseFilter(filter)), ParseSortKey(sort))
  }

  /** The results are exactly the seeded entries the filter test accepts, each once. */
  lemma PerformSearchMembers(term: string, filter: string, sort: string)
    ensures forall e :: e in PerformSearch(term, filter, sort) <==> e in Seed && Keep(term, ParseFilter(filter), e)
    ensures multiset(PerformSearch(term, filter, sort)) == multiset(Select(Seed, term, ParseFilter(filter)))
    ensures forall e :: multiset(PerformSearch(term, filter, sort))[e] <= 1
  {
    var kept := Select(Seed, term, ParseFilter(filter));
    SeedOnce();
    SelectSpec(Seed, term, ParseFilter(filter));
    SortResultsSpec(kept, ParseSortKey(sort));
    assert forall e :: e in SortResults(kept, ParseSortKey(sort)) <==> e in multiset(kept);
  }

  /** The results are the kept entries: in catalog order for relevance, else sorted by the key. */
  lemma PerformSearchOrder(term: string, filter: string, sort: string)
    ensures ParseSortKey(sort) == Relevance ==> IsSubsequence(PerformSearch(term, filter, sort), Seed)
    ensures ParseSortKey(sort) != Relevance ==>
              StableSort.Descending(PerformSearch(term, filter, sort), SortField(ParseSortKey(sort)))
  {
    var kept := Select(Seed, term, ParseFilter(filter));
    SelectIsSubsequence(Seed, term, ParseFilter(filter));
    SortResultsSpec(kept, ParseSortKey(sort));
  }

  // ---------------------------------------------------------------------------
  // The finder's state and events
  // ---------------------------------------------------------------------------

  /** The finder state that decides what is listed. */
  datatype Finder = Finder(searchTerm: string, filter: string, sort: string, results: seq<Entry>)

  datatype Event =
    | EditTerm(text: string)  // typing into the search box
    | Search                  // the search button, or Enter in the box
    | PickFilter(f: string)   // a filter button
    | PickSort(k: string)     // the sort menu

  function Refresh(st: Finder): Finder {
    st.(results := PerformSearch(st.searchTerm, st.filter, st.sort))
  }

  /**
   One event. Typing only stores the term; the search button reruns the search; a
   new filter or sort value reruns it through the effect, and picking the value already
   chosen does not, since the effect only runs when its dependencies change.
   */
  function Step(st: Finder, ev: Event): (r: Finder)
    ensures ev.EditTerm? ==> r == st.(searchTerm := ev.text)
    ensures ev.Search? ==> r == st.(results := PerformSearch(st.searchTerm, st.filter, st.sort))
    ensures ev.PickFilter? && ev.f != st.filter ==>
              r == st.(filter := ev.f, results := PerformSearch(st.searchTerm, ev.f, st.sort))
    ensures ev.PickSort? && ev.k != st.sort ==>
              r == st.(sort := ev.k, results := PerformSearch(st.searchTerm, st.filter, ev.k))
    ensures ev.PickFilter? && ev.f == st.filter ==> r == st
    ensures ev.PickSort? && ev.k == st.sort ==> r == st
  {
    match ev
    case EditTerm(text) => st.(searchTerm := text)
    case Search => Refresh(st)
    case PickFilter(f) => if f == st.filter then st else Refresh(st.(filter := f))
    case PickSort(k) => if k == st.sort then st else Refresh(st.(sort := k))
  }

  /** The finder after mounting: the effect has run once with the initial state. */
  const Mounted: Finder := Refresh(Finder("", "all", "relevance", []))

  /** The list shown is always a search under the current filter and sort, for some term. */
  ghost predicate Consistent(st: Finder) {
    exists term :: st.results == PerformSearch(term, st.filter, st.sort)
  }

  lemma MountedShowsSeed()
    ensures Mounted.results == Seed
    ensures Consistent(Mounted)
  {
    SelectEverything(Seed);
  }

  lemma StepKeepsConsistent(st: Finder, ev: Event)
    requires Consistent(st)
    ensures Consistent(Step(st, ev))
  {
    var r := Step(st, ev);
    match ev
    case EditTerm(_) =>
      var term :| st.results == PerformSearch(term, st.filter, st.sort);
      assert r.results == PerformSearch(term, r.filter, r.sort);
    case Search =>
      assert r.results == PerformSearch(st.searchTerm, r.filter, r.sort);
    case PickFilter(f) =>
      if f != st.filter {
        assert r.results == PerformSearch(st.searchTerm, r.filter, r.sort);
      }
    case PickSort(k) =>
      if k != st.sort {
        assert r.results == PerformSearch(st.searchTerm, r.filter, r.sort);
      }
  }

  // ---------------------------------------------------------------------------
  // redirectToDownload
  // ---------------------------------------------------------------------------

  const DownloaderPage := "https://nebhulapk.vercel.app/es"
  const PackageQuery := "?package="

  /** The address `redirectToDownload` sends the browser to. */
  function RedirectUrl(packageName: string): (url: string)
    ensures IsPrefix(DownloaderPage + PackageQuery, url)
  {
    DownloaderPage + PackageQuery + UriComponent.Encode(packageName)
  }

  /** Reads the package back out of a redirect address. */
  function PackageOfRedirect(url: string): Option<string> {
    var p := DownloaderPage + PackageQuery;
    if !IsPrefix(p, url) then None
    else match UriComponent.Decode(url[|p|..])
      case None => None
      case Some(name) => Some(name)
  }

  /** Every package name survives the trip through the redirect address. */
  lemma RedirectRoundTrip(packageName: string)
    ensures PackageOfRedirect(RedirectUrl(packageName)) == Some(packageName)
  {
    var p := DownloaderPage + PackageQuery;
    assert RedirectUrl(packageName)[|p|..] == UriComponent.Encode(packageName);
    UriComponent.DecodeEncode(packageName);
  }

  /** A name of letters, digits and dots appears in the address as it is. */
  lemma RedirectPlainName(packageName: string)
    requires forall i :: 0 <= i < |packageName| ==> IsAlnum(packageName[i]) || packageName[i] == '.'
    ensures RedirectUrl(packageName) == DownloaderPage + PackageQuery + packageName
  {
    UriComponent.EncodeUnreserved(packageName);
  }
}
