/**
 Facts about the twelve seeded records: which ones the `popular` filter and the
 term `candy` keep, and the order the popularity sort gives.
 */
module CatalogFacts {
  import opened Text
  import opened Catalog
  import StableSort

  function Ids(s: seq<Entry>): (r: seq<nat>)
    ensures |r| == |s|
    ensures forall i :: 0 <= i < |s| ==> r[i] == s[i].id
  {
    if s == [] then [] else [s[0].id] + Ids(s[1..])
  }

  lemma SeedIds()
    ensures Ids(Seed) == [1, 2, 3, 4, 5, 6, 7, 8, 9, 10, 11, 12]
  {
    assert Ids(Seed)[11] == 12;
  }

  function KeptPart(term: string, f: Filter, e: Entry): seq<Entry> {
    if Keep(term, f, e) then [e] else []
  }

  /** Filtering three entries, one decision at a time. */
  lemma SelectThree(a: Entry, b: Entry, c: Entry, term: string, f: Filter)
    ensures Select([a, b, c], term, f) == KeptPart(term, f, a) + KeptPart(term, f, b) + KeptPart(term, f, c)
  {
    assert [c][1..] == [];
    assert Select([c], term, f) == KeptPart(term, f, c);
    assert [b, c][1..] == [c];
    assert Select([b, c], term, f) == KeptPart(term, f, b) + KeptPart(term, f, c);
    assert [a, b, c][1..] == [b, c];
  }

  /** Filtering the seed list is filtering its four rows of three, one after the other. */
  lemma SelectSeed(term: string, f: Filter)
    ensures Select(Seed, term, f)
         == Select([WhatsApp, CandyCrush, Spotify], term, f)
          + Select([Minecraft, Instagram, AmongUs], term, f)
          + Select([PhotoshopExpress, Asphalt9, Netflix], term, f)
          + Select([ClashOfClans, Telegram, SubwaySurfers], term, f)
  {
    var r1 := [WhatsApp, CandyCrush, Spotify];
    var r2 := [Minecraft, Instagram, AmongUs];
    var r3 := [PhotoshopExpress, Asphalt9, Netflix];
    var r4 := [ClashOfClans, Telegram, SubwaySurfers];
    assert Seed == r1 + r2 + r3 + r4;
    SelectAppend(r1 + r2 + r3, r4, term, f);
    SelectAppend(r1 + r2, r3, term, f);
    SelectAppend(r1, r2, term, f);
  }

  /** `popular` keeps exactly ids 1, 2, 5 and 9; ids 3 and 12 sit at 90 and are left out. */
  lemma PopularSeed()
    ensures Select(Seed, "", Popular) == [WhatsApp, CandyCrush, Instagram, Netflix]
    ensures Spotify.popularity == 90 && !Keep("", Popular, Spotify)
    ensures SubwaySurfers.popularity == 90 && !Keep("", Popular, SubwaySurfers)
  {
    SelectSeed("", Popular);
    SelectThree(WhatsApp, CandyCrush, Spotify, "", Popular);
    SelectThree(Minecraft, Instagram, AmongUs, "", Popular);
    SelectThree(PhotoshopExpress, Asphalt9, Netflix, "", Popular);
    SelectThree(ClashOfClans, Telegram, SubwaySurfers, "", Popular);
  }

  // Each record other than Candy Crush Saga has, in every searched field, a letter of
  // `candy` that is missing in both cases, or (in the Minecraft description) a `y` that
  // no `cand` precedes.

  lemma WhatsAppMissesCandy()
    ensures !MatchesSearch("candy", WhatsApp)
  {
    LetterMissingExcludes(WhatsApp.name, "candy", 4);
    LetterMissingExcludes(WhatsApp.description, "candy", 4);
    LetterMissingExcludes(WhatsApp.packageName, "candy", 4);
  }

  lemma SpotifyMissesCandy()
    ensures !MatchesSearch("candy", Spotify)
  {
    LetterMissingExcludes(Spotify.name, "candy", 2);
    LetterMissingExcludes(Spotify.description, "candy", 4);
    LetterMissingExcludes(Spotify.packageName, "candy", 3);
  }

  /** The description's only `y` (index 19) ends `ras y`, not `candy`. */
  lemma MinecraftDescriptionMissesCandy()
    ensures !IncludesFolded(Minecraft.description, "candy")
  {
    assert ToLower(Minecraft.description)[15] == 'r' != ToLower("candy")[0];
    RareLetterExcludes(Minecraft.description, "candy", 4, 19);
  }

  lemma MinecraftMissesCandy()
    ensures !MatchesSearch("candy", Minecraft)
  {
    LetterMissingExcludes(Minecraft.name, "candy", 4);
    MinecraftDescriptionMissesCandy();
    LetterMissingExcludes(Minecraft.packageName, "candy", 4);
  }

  lemma InstagramMissesCandy()
    ensures !MatchesSearch("candy", Instagram)
  {
    LetterMissingExcludes(Instagram.name, "candy", 4);
    LetterMissingExcludes(Instagram.description, "candy", 2);
    LetterMissingExcludes(Instagram.packageName, "candy", 4);
  }

  lemma AmongUsMissesCandy()
    ensures !MatchesSearch("candy", AmongUs)
  {
    LetterMissingExcludes(AmongUs.name, "candy", 4);
    LetterMissingExcludes(AmongUs.description, "candy", 4);
    LetterMissingExcludes(AmongUs.packageName, "candy", 4);
  }

  lemma PhotoshopExpressMissesCandy()
    ensures !MatchesSearch("candy", PhotoshopExpress)
  {
    LetterMissingExcludes(PhotoshopExpress.name, "candy", 4);
    LetterMissingExcludes(PhotoshopExpress.description, "candy", 4);
    LetterMissingExcludes(PhotoshopExpress.packageName, "candy", 4);
  }

  lemma Asphalt9MissesCandy()
    ensures !MatchesSearch("candy", Asphalt9)
  {
    LetterMissingExcludes(Asphalt9.name, "candy", 4);
    LetterMissingExcludes(Asphalt9.description, "candy", 4);
    LetterMissingExcludes(Asphalt9.packageName, "candy", 4);
  }

  lemma NetflixMissesCandy()
    ensures !MatchesSearch("candy", Netflix)
  {
    LetterMissingExcludes(Netflix.name, "candy", 4);
    LetterMissingExcludes(Netflix.description, "candy", 4);
    LetterMissingExcludes(Netflix.packageName, "candy", 4);
  }

  lemma ClashOfClansMissesCandy()
    ensures !MatchesSearch("candy", ClashOfClans)
  {
    LetterMissingExcludes(ClashOfClans.name, "candy", 4);
    LetterMissingExcludes(ClashOfClans.description, "candy", 4);
    LetterMissingExcludes(ClashOfClans.packageName, "candy", 4);
  }

  lemma TelegramMissesCandy()
    ensures !MatchesSearch("candy", Telegram)
  {
    LetterMissingExcludes(Telegram.name, "candy", 4);
    LetterMissingExcludes(Telegram.description, "candy", 0);
    LetterMissingExcludes(Telegram.packageName, "candy", 4);
  }

  lemma SubwaySurfersMissesCandy()
    ensures !MatchesSearch("candy", SubwaySurfers)
  {
    LetterMissingExcludes(SubwaySurfers.name, "candy", 3);
    LetterMissingExcludes(SubwaySurfers.description, "candy", 4);
    LetterMissingExcludes(SubwaySurfers.packageName, "candy", 3);
  }

  /** None of the other eleven records mentions `candy`, in any case. */
  lemma OthersMissCandy()
    ensures !Keep("candy", All, WhatsApp) && !Keep("candy", All, Spotify)
    ensures !Keep("candy", All, Minecraft) && !Keep("candy", All, Instagram)
    ensures !Keep("candy", All, AmongUs) && !Keep("candy", All, PhotoshopExpress)
    ensures !Keep("candy", All, Asphalt9) && !Keep("candy", All, Netflix)
    ensures !Keep("candy", All, ClashOfClans) && !Keep("candy", All, Telegram)
    ensures !Keep("candy", All, SubwaySurfers)
  {
    WhatsAppMissesCandy();
    SpotifyMissesCandy();
    MinecraftMissesCandy();
    InstagramMissesCandy();
    AmongUsMissesCandy();
    PhotoshopExpressMissesCandy();
    Asphalt9MissesCandy();
    NetflixMissesCandy();
    ClashOfClansMissesCandy();
    TelegramMissesCandy();
    SubwaySurfersMissesCandy();
  }

  /** The term `candy` finds only Candy Crush Saga. */
  lemma CandySeed()
    ensures Select(Seed, "candy", All) == [CandyCrush]
  {
    assert OccursAt(ToLower("candy"), ToLower(CandyCrush.name), 0);
    assert Keep("candy", All, CandyCrush);
    OthersMissCandy();
    SelectSeed("candy", All);
    SelectThree(WhatsApp, CandyCrush, Spotify, "candy", All);
    SelectThree(Minecraft, Instagram, AmongUs, "candy", All);
    SelectThree(PhotoshopExpress, Asphalt9, Netflix, "candy", All);
    SelectThree(ClashOfClans, Telegram, SubwaySurfers, "candy", All);
  }

  /** Searching `candy` with every type and relevance order lists Candy Crush Saga alone. */
  lemma CandySearch()
    ensures Ids(PerformSearch("candy", "all", "relevance")) == [2]
  {
    CandySeed();
  }

  /** The ids `popular` shows in relevance order. */
  lemma PopularIds()
    ensures Ids(PerformSearch("", "popular", "relevance")) == [1, 2, 5, 9]
  {
    PopularSeed();
  }

  /** The four popular records, ordered by popularity: 100, 98, 95, 92. */
  lemma PopularSorted()
    ensures SortResults([WhatsApp, CandyCrush, Instagram, Netflix], ByPopularity)
         == [WhatsApp, Instagram, CandyCrush, Netflix]
  {
    var key := SortField(ByPopularity);
    assert StableSort.SortDesc([Netflix], key) == [Netflix];
    assert [Instagram, Netflix][1..] == [Netflix];
    assert StableSort.SortDesc([Instagram, Netflix], key) == [Instagram, Netflix];
    assert [CandyCrush, Instagram, Netflix][1..] == [Instagram, Netflix];
    assert StableSort.Insert(CandyCrush, [Netflix], key) == [CandyCrush, Netflix];
    assert StableSort.Insert(CandyCrush, [Instagram, Netflix], key) == [Instagram, CandyCrush, Netflix];
    assert [WhatsApp, CandyCrush, Instagram, Netflix][1..] == [CandyCrush, Instagram, Netflix];
    assert StableSort.SortDesc([WhatsApp, CandyCrush, Instagram, Netflix], key)
        == [WhatsApp, Instagram, CandyCrush, Netflix];
  }

  /** `popular` under the popularity sort lists WhatsApp, Instagram, Candy Crush, Netflix. */
  lemma PopularByPopularity()
    ensures Ids(PerformSearch("", "popular", "popularity")) == [1, 5, 2, 9]
  {
    PopularSeed();
    PopularSorted();
  }

  /** With no term, `all` and relevance, the whole list is shown in its order. */
  lemma EverythingShown()
    ensures PerformSearch("", "all", "relevance") == Seed
  {
    SelectEverything(Seed);
  }
}
