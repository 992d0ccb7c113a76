/**
 Worked inputs for the lookup form: a store URL with a trailing parameter, and
 package names the regex accepts and rejects.
 */
module LookupFacts {
  import opened Text
  import opened Options
  import opened Lookup

  const WhatsAppStoreUrl := "https://play.google.com/store/apps/details?id=com.whatsapp&hl=en"

  lemma HttpsAppsPrefix()
    ensures StorePrefix(Https, Apps) == "https://play.google.com/store/apps/details?id="
  {
  }

  lemma WhatsAppUrlParts()
    ensures WhatsAppStoreUrl == StorePrefix(Https, Apps) + "com.whatsapp" + "&hl=en"
  {
    HttpsAppsPrefix();
    assert "https://play.google.com/store/apps/details?id=" + "com.whatsapp" + "&hl=en" == WhatsAppStoreUrl;
  }

  /** The `id` parameter of a store URL is read up to the next `&`. */
  lemma WhatsAppUrl()
    ensures ValidInput(WhatsAppStoreUrl)
    ensures ExtractPackageName(WhatsAppStoreUrl) == "com.whatsapp"
  {
    WhatsAppUrlParts();
    StoreUrlRoundTrip(Https, Apps, "com.whatsapp", "&hl=en");
  }

  /** Three alphanumeric segments joined by dots form a package name. */
  lemma ThreeSegments()
    ensures IsPackageName("com.example.app")
  {
    var segs := ["com", "example", "app"];
    assert JoinDots(segs[2..]) == "app";
    assert JoinDots(segs[1..]) == "example.app";
    assert JoinDots(segs) == "com.example.app";
    JoinIsPackageName(segs);
  }

  /** An underscore or a doubled dot is refused, by both patterns. */
  lemma RejectedCharacters()
    ensures !ValidInput("com.exa_mple") && !ValidInput("com..x")
  {
    ValidInputRejects("com.exa_mple", 7);
    ValidInputRejects("com..x", 3);
  }

  /** A leading dot or a single segment is refused, by both patterns. */
  lemma RejectedShapes()
    ensures !ValidInput(".com.x") && !ValidInput("whatsapp")
  {
    ValidInputRejects(".com.x", 0);
    ValidInputRejects("whatsapp", 0);
  }

  /** `com.whatsapp` is two segments joined by a dot. */
  lemma WhatsAppName()
    ensures IsPackageName("com.whatsapp")
  {
    var segs := ["com", "whatsapp"];
    assert JoinDots(segs[1..]) == "whatsapp";
    assert JoinDots(segs) == "com.whatsapp";
    JoinIsPackageName(segs);
  }

  /**
   Submitting `com.whatsapp` sends it as typed; a free listing that is not a
   pre-registration is offered for download, and a server error is not.
   */
  lemma SubmitWhatsApp(l: Listing)
    ensures var (p, req) := Submit(Type(InitialPage, "com.whatsapp"), "es", Received(AppRecord(l)));
      && req == Some(Request("com.whatsapp", "es"))
      && (p.downloadReady <==> l.free && !l.preregister)
      && (p.downloadReady ==> DownloadUrl(p) == Some(ApkUrl(l.appId)))
    ensures Submit(Type(InitialPage, "com.whatsapp"), "es", Received(ErrorRecord)).0.message == NotPossible
  {
    WhatsAppName();
    SubmitPackageName(Type(InitialPage, "com.whatsapp"), "es", Received(AppRecord(l)));
    SubmitPackageName(Type(InitialPage, "com.whatsapp"), "es", Received(ErrorRecord));
  }
}
