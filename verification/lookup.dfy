/**
 The lookup form of the home page: the input is trimmed, validated as a dotted
 package name or a Play Store details URL, reduced to a package name, sent to the
 metadata endpoint, and the reply decides whether a download link is offered.
 */
module Lookup {
  import opened Text
  import opened Options

  // ---------------------------------------------------------------------------
  // Trimming (`String.prototype.trim`)
  // ---------------------------------------------------------------------------

  /** ECMAScript WhiteSpace and LineTerminator code points. */
  predicate IsJsSpace(c: char) {
    var n := c as int;
    (0x09 <= n <= 0x0D) || n == 0x20 || n == 0xA0 || n == 0x1680
    || (0x2000 <= n <= 0x200A) || n == 0x2028 || n == 0x2029 || n == 0x202F
    || n == 0x205F || n == 0x3000 || n == 0xFEFF
  }

  function TrimStart(s: string): (r: string)
    ensures |r| <= |s| && r == s[|s| - |r|..]
    ensures forall i :: 0 <= i < |s| - |r| ==> IsJsSpace(s[i])
    ensures |r| > 0 ==> !IsJsSpace(r[0])
  {
    if |s| > 0 && IsJsSpace(s[0]) then TrimStart(s[1..]) else s
  }

  function TrimEnd(s: string): (r: string)
    ensures |r| <= |s| && r == s[..|r|]
    ensures forall i :: |r| <= i < |s| ==> IsJsSpace(s[i])
    ensures |r| > 0 ==> !IsJsSpace(r[|r| - 1])
  {
    if |s| > 0 && IsJsSpace(s[|s| - 1]) then TrimEnd(s[..|s| - 1]) else s
  }

  /**
   The input with its leading and trailing white space removed: a contiguous slice
   of the input that neither starts nor ends with white space, and everything cut
   away is white space.
   */
  function Trim(s: string): (r: string)
    ensures exists i :: TrimmedAt(s, r, i)
    ensures |r| > 0 ==> !IsJsSpace(r[0]) && !IsJsSpace(r[|r| - 1])
  {
    var a := TrimStart(s);
    var r := TrimEnd(a);
    var i := |s| - |a|;
    assert TrimmedAt(s, r, i);
    r
  }

  /** `r` is the slice of `s` at `i`, with only white space before and after it. */
  ghost predicate TrimmedAt(s: string, r: string, i: int) {
    && 0 <= i <= |s| - |r|
    && r == s[i..i + |r|]
    && (forall j :: 0 <= j < i ==> IsJsSpace(s[j]))
    && (forall j :: i + |r| <= j < |s| ==> IsJsSpace(s[j]))
  }

  // ---------------------------------------------------------------------------
  // Package names: /^(?:[a-zA-Z0-9]+\.)+[a-zA-Z0-9]+$/
  // ---------------------------------------------------------------------------

  /** Length of the longest prefix of `s` made of `[a-zA-Z0-9]`. */
  function AlnumRun(s: string): (k: nat)
    ensures k <= |s|
    ensures forall i :: 0 <= i < k ==> IsAlnum(s[i])
    ensures k < |s| ==> !IsAlnum(s[k])
  {
    if |s| > 0 && IsAlnum(s[0]) then 1 + AlnumRun(s[1..]) else 0
  }

  /**
   The regex tail `(?:[a-zA-Z0-9]+\.)*[a-zA-Z0-9]+$`. A segment cannot contain a
   dot, so every match splits the string at its dots and matching the longest
   alphanumeric run first loses nothing.
   */
  predicate Segments(s: string)
    decreases |s|
  {
    var k := AlnumRun(s);
    0 < k && (k == |s| || (s[k] == '.' && Segments(s[k + 1..])))
  }

  /** The package-name regex: at least one segment followed by a dot, then `Segments`. */
  predicate IsPackageName(s: string) {
    var k := AlnumRun(s);
    0 < k < |s| && s[k] == '.' && Segments(s[k + 1..])
  }

  /**
   Reference definition by characters: only letters, digits and dots, not starting
   or ending with a dot, and no two dots in a row.
   */
  ghost predicate WellFormedDotted(s: string) {
    && |s| > 0
    && s[0] != '.'
    && s[|s| - 1] != '.'
    && (forall i :: 0 <= i < |s| ==> IsAlnum(s[i]) || s[i] == '.')
    && (forall i :: 0 <= i < |s| - 1 && s[i] == '.' ==> s[i + 1] != '.')
  }

  lemma {:induction false} SegmentsIff(s: string)
    ensures Segments(s) <==> WellFormedDotted(s)
    decreases |s|
  {
    var k := AlnumRun(s);
    if 0 < k < |s| && s[k] == '.' {
      var t := s[k + 1..];
      SegmentsIff(t);
      if WellFormedDotted(s) {
        assert |t| > 0;
        assert t[0] != '.' by { assert t[0] == s[k + 1]; }
        assert forall i :: 0 <= i < |t| ==> t[i] == s[k + 1 + i];
      }
      if WellFormedDotted(t) {
        forall i | 0 <= i < |s|
          ensures IsAlnum(s[i]) || s[i] == '.'
        {
          if i > k { assert s[i] == t[i - k - 1]; }
        }
        forall i | 0 <= i < |s| - 1 && s[i] == '.'
          ensures s[i + 1] != '.'
        {
          if i > k { assert s[i] == t[i - k - 1] && s[i + 1] == t[i - k]; }
        }
        assert s[|s| - 1] == t[|t| - 1];
      }
    } else if 0 < k < |s| {
      assert !IsAlnum(s[k]);
    }
  }

  /** The regex accepts exactly the well-formed dotted strings that contain a dot. */
  lemma PackageNameIff(s: string)
    ensures IsPackageName(s) <==> WellFormedDotted(s) && '.' in s
  {
    var k := AlnumRun(s);
    if 0 < k < |s| && s[k] == '.' {
      var t := s[k + 1..];
      SegmentsIff(t);
      if WellFormedDotted(s) {
        assert t[0] != '.' by { assert t[0] == s[k + 1]; }
        assert forall i :: 0 <= i < |t| ==> t[i] == s[k + 1 + i];
      }
      if WellFormedDotted(t) {
        forall i | 0 <= i < |s|
          ensures IsAlnum(s[i]) || s[i] == '.'
        {
          if i > k { assert s[i] == t[i - k - 1]; }
        }
        forall i | 0 <= i < |s| - 1 && s[i] == '.'
          ensures s[i + 1] != '.'
        {
          if i > k { assert s[i] == t[i - k - 1] && s[i + 1] == t[i - k]; }
        }
        assert s[|s| - 1] == t[|t| - 1];
      }
    }
  }

  /**
   A character outside `[A-Za-z0-9.]`, an empty first or last segment, or an empty
   segment in the middle, makes the package-name regex fail.
   */
  lemma PackageNameRejects(s: string, i: int)
    requires 0 <= i < |s|
    requires || (!IsAlnum(s[i]) && s[i] != '.')
             || (i == 0 && s[i] == '.')
             || (i == |s| - 1 && s[i] == '.')
             || (i < |s| - 1 && s[i] == '.' && s[i + 1] == '.')
    ensures !IsPackageName(s)
  {
    PackageNameIff(s);
  }

  /** Segments joined by single dots. */
  function JoinDots(segs: seq<string>): string
    requires |segs| > 0
  {
    if |segs| == 1 then segs[0] else segs[0] + "." + JoinDots(segs[1..])
  }

  predicate IsSegment(w: string) {
    |w| > 0 && forall i :: 0 <= i < |w| ==> IsAlnum(w[i])
  }

  lemma {:induction false} JoinedSegments(segs: seq<string>)
    requires |segs| > 0 && forall j :: 0 <= j < |segs| ==> IsSegment(segs[j])
    ensures Segments(JoinDots(segs))
    decreases |segs|
  {
    var w := segs[0];
    var s := JoinDots(segs);
    assert s[..|w|] == w;
    AlnumRunOfSegment(w, s);
    if |segs| > 1 {
      JoinedSegments(segs[1..]);
      assert s[|w| + 1..] == JoinDots(segs[1..]);
    }
  }

  /** The alphanumeric run stops exactly at the end of an alphanumeric prefix followed by a non-alphanumeric. */
  lemma {:induction false} AlnumRunOfSegment(w: string, s: string)
    requires forall i :: 0 <= i < |w| ==> IsAlnum(w[i])
    requires IsPrefix(w, s)
    requires |s| > |w| ==> !IsAlnum(s[|w|])
    ensures AlnumRun(s) == |w|
    decreases |w|
  {
    if |w| > 0 {
      assert s[0] == w[0];
      assert s[1..][..|w| - 1] == w[1..];
      AlnumRunOfSegment(w[1..], s[1..]);
    }
  }

  /** Two or more alphanumeric segments joined by single dots always form a package name. */
  lemma JoinIsPackageName(segs: seq<string>)
    requires |segs| >= 2 && forall j :: 0 <= j < |segs| ==> IsSegment(segs[j])
    ensures IsPackageName(JoinDots(segs))
  {
    var w := segs[0];
    var t := JoinDots(segs[1..]);
    JoinedSegments(segs[1..]);
    DotAfterSegment(w, t);
  }

  /** A segment, a dot, and a `Segments` tail make a package name. */
  lemma DotAfterSegment(w: string, t: string)
    requires IsSegment(w) && Segments(t)
    ensures IsPackageName(w + "." + t)
  {
    var s := w + "." + t;
    assert s[..|w|] == w && s[|w|] == '.';
    AlnumRunOfSegment(w, s);
    assert s[|w| + 1..] == t;
  }

  /** The segments of a string the `Segments` tail accepts. */
  function SplitSegments(s: string): (segs: seq<string>)
    requires Segments(s)
    ensures |segs| > 0 && JoinDots(segs) == s
    ensures forall j :: 0 <= j < |segs| ==> IsSegment(segs[j])
    decreases |s|
  {
    var k := AlnumRun(s);
    if k == |s| then
      assert s[..k] == s;
      [s]
    else
      var rest := SplitSegments(s[k + 1..]);
      var segs := [s[..k]] + rest;
      assert segs[1..] == rest;
      assert s == s[..k] + "." + s[k + 1..];
      assert s[k] == '.';
      segs
  }

  /** Every accepted package name is two or more alphanumeric segments joined by dots. */
  function PackageSegments(s: string): (segs: seq<string>)
    requires IsPackageName(s)
    ensures |segs| >= 2 && JoinDots(segs) == s
    ensures forall j :: 0 <= j < |segs| ==> IsSegment(segs[j])
  {
    var k := AlnumRun(s);
    var rest := SplitSegments(s[k + 1..]);
    var segs := [s[..k]] + rest;
    assert segs[1..] == rest;
    assert s == s[..k] + "." + s[k + 1..];
    segs
  }

  // ---------------------------------------------------------------------------
  // Store URLs: /^https?:\/\/play\.google\.com\/store\/(apps|games)\/details\?id=([^\&]+)/
  // ---------------------------------------------------------------------------

  datatype Scheme = Http | Https
  datatype Section = Apps | Games

  /** The fixed text the URL regex matches in front of the `id` group. */
  function StorePrefix(scheme: Scheme, section: Section): string {
    (if scheme == Http then "http://" else "https://")
    + "play.google.com/store/"
    + (if section == Apps then "apps" else "games")
    + "/details?id="
  }

  /** Matches the fixed part of the URL regex at the start of `s`. */
  function MatchStorePrefix(s: string): (r: Option<(Scheme, Section)>)
    ensures r.Some? ==> IsPrefix(StorePrefix(r.value.0, r.value.1), s)
  {
    var scheme := if IsPrefix("https://", s) then Some(Https)
                  else if IsPrefix("http://", s) then Some(Http)
                  else None;
    if scheme.None? then
      None
    else
      var sc := scheme.value;
      if IsPrefix(StorePrefix(sc, Apps), s) then Some((sc, Apps))
      else if IsPrefix(StorePrefix(sc, Games), s) then Some((sc, Games))
      else None
  }

  /** Every store prefix is recognised, with its own scheme and section. */
  lemma MatchStorePrefixComplete(s: string, sc: Scheme, se: Section)
    requires IsPrefix(StorePrefix(sc, se), s)
    ensures MatchStorePrefix(s) == Some((sc, se))
  {
    SchemeDetermined(sc, se, s);
    if se == Apps {
    } else if IsPrefix(StorePrefix(sc, Apps), s) {
      SectionDetermined(sc, se, Apps, s);
    }
  }

  /** `https` is tried first; a string with an `http://` store prefix cannot also start with `https://`. */
  lemma SchemeDetermined(sc: Scheme, se: Section, s: string)
    requires IsPrefix(StorePrefix(sc, se), s)
    ensures sc == Https <==> IsPrefix("https://", s)
    ensures sc == Http ==> IsPrefix("http://", s)
  {
    var p := StorePrefix(sc, se);
    if sc == Http {
      assert p[..7] == "http://";
      assert s[4] == ':';
    } else {
      assert p[..8] == "https://";
    }
  }

  /** The section word decides the store prefix: `apps/` and `games/` differ at their first letter. */
  lemma SectionDetermined(sc: Scheme, se1: Section, se2: Section, s: string)
    requires IsPrefix(StorePrefix(sc, se1), s) && IsPrefix(StorePrefix(sc, se2), s)
    ensures se1 == se2
  {
    var n := (if sc == Http then 7 else 8) + 22;
    assert StorePrefix(sc, se1)[n] == s[n] == StorePrefix(sc, se2)[n];
  }

  /** Every store prefix holds a `:` after its scheme, which no package name contains. */
  lemma StorePrefixColon(sc: Scheme, se: Section) returns (j: nat)
    ensures j < |StorePrefix(sc, se)| && StorePrefix(sc, se)[j] == ':'
  {
    j := if sc == Http then 4 else 5;
  }

  /** The longest prefix of `s` free of `&`: what `([^\&]+)` captures when greedy. */
  function UpToAmp(s: string): (r: string)
    ensures IsPrefix(r, s) && '&' !in r
    ensures |r| < |s| ==> s[|r|] == '&'
  {
    if |s| == 0 || s[0] == '&' then "" else [s[0]] + UpToAmp(s[1..])
  }

  /**
   `s` is a store prefix, then `id`, then nothing or a text starting with `&`: the
   shape of a URL whose `id` parameter is `id`.
   */
  ghost predicate SplitsAs(s: string, sc: Scheme, se: Section, id: string, rest: string) {
    s == StorePrefix(sc, se) + id + rest && (rest == [] || rest[0] == '&')
  }

  /**
   The URL regex, anchored at the start only: the captured `id` value, when the
   fixed part matches and at least one character other than `&` follows it.
   */
  function MatchStoreUrl(s: string): (r: Option<string>)
    ensures r.Some? ==> |r.value| > 0 && '&' !in r.value
  {
    match MatchStorePrefix(s)
    case None => None
    case Some((sc, se)) =>
      var id := UpToAmp(s[|StorePrefix(sc, se)|..]);
      if |id| > 0 then Some(id) else None
  }

  /** A matched URL is a store prefix, the captured value, and then nothing or `&…`. */
  lemma MatchStoreUrlSound(s: string)
    requires MatchStoreUrl(s).Some?
    ensures exists sc: Scheme, se: Section, rest: string :: SplitsAs(s, sc, se, MatchStoreUrl(s).value, rest)
  {
    var (sc, se) := MatchStorePrefix(s).value;
    var p := StorePrefix(sc, se);
    var id := MatchStoreUrl(s).value;
    var rest := s[|p| + |id|..];
    assert s == p + id + rest;
    assert rest == [] || rest[0] == '&' by {
      if rest != [] { assert rest[0] == s[|p|..][|id|]; }
    }
    assert SplitsAs(s, sc, se, id, rest);
  }

  /**
   A store URL rebuilt from its parts is matched, and the captured value is exactly
   the `id` parameter: the round trip of `extractPackageName`.
   */
  lemma StoreUrlRoundTrip(sc: Scheme, se: Section, id: string, rest: string)
    requires |id| > 0 && '&' !in id
    requires rest == [] || rest[0] == '&'
    ensures MatchStoreUrl(StorePrefix(sc, se) + id + rest) == Some(id)
    ensures ExtractPackageName(StorePrefix(sc, se) + id + rest) == id
    ensures ValidInput(StorePrefix(sc, se) + id + rest)
  {
    var p := StorePrefix(sc, se);
    var s := p + id + rest;
    assert IsPrefix(p, s);
    MatchStorePrefixComplete(s, sc, se);
    assert s[|p|..] == id + rest;
    UpToAmpStops(id, rest);
  }

  lemma {:induction false} UpToAmpStops(id: string, rest: string)
    requires '&' !in id
    requires rest == [] || rest[0] == '&'
    ensures UpToAmp(id + rest) == id
    decreases |id|
  {
    if |id| > 0 {
      assert (id + rest)[1..] == id[1..] + rest;
      assert id[0] in id;
      UpToAmpStops(id[1..], rest);
    } else {
      assert id + rest == rest;
    }
  }

  // ---------------------------------------------------------------------------
  // validateInput and extractPackageName
  // ---------------------------------------------------------------------------

  /** `validateInput`: a package name, or a string the store URL regex matches. */
  predicate ValidInput(s: string) {
    IsPackageName(s) || MatchStoreUrl(s).Some?
  }

  /** `extractPackageName`: the captured `id` value of a store URL, else the input itself. */
  function ExtractPackageName(s: string): (r: string)
    ensures MatchStoreUrl(s).None? ==> r == s
  {
    match MatchStoreUrl(s)
    case Some(id) => id
    case None => s
  }

  /** A package name is never mistaken for a URL: it is passed through unchanged. */
  lemma PackageNameUnchanged(s: string)
    requires IsPackageName(s)
    ensures MatchStoreUrl(s).None?
    ensures ExtractPackageName(s) == s
    ensures '&' !in s
  {
    PackageNameCharacters(s);
    NoColonNoStoreUrl(s);
  }

  /** The URL regex needs the `:` of the scheme. */
  lemma NoColonNoStoreUrl(s: string)
    requires ':' !in s
    ensures MatchStoreUrl(s).None?
  {
    if MatchStorePrefix(s).Some? {
      var (sc, se) := MatchStorePrefix(s).value;
      var j := StorePrefixColon(sc, se);
    }
  }

  /**
   Input without a `:` that has no dot, or that the package-name regex refuses at
   index `i`, fails `validateInput`: neither pattern matches it.
   */
  lemma ValidInputRejects(s: string, i: int)
    requires ':' !in s
    requires || '.' !in s
             || (&& 0 <= i < |s|
                 && (|| (!IsAlnum(s[i]) && s[i] != '.')
                     || (i == 0 && s[i] == '.')
                     || (i == |s| - 1 && s[i] == '.')
                     || (i < |s| - 1 && s[i] == '.' && s[i + 1] == '.')))
    ensures !ValidInput(s)
  {
    if '.' in s {
      PackageNameRejects(s, i);
    } else {
      PackageNameIff(s);
    }
    NoColonNoStoreUrl(s);
  }

  lemma PackageNameCharacters(s: string)
    requires IsPackageName(s)
    ensures ':' !in s && '&' !in s
  {
    PackageNameIff(s);
  }

  /**
   Whatever passes validation yields a non-empty package name without `&`, so the
   second "invalid input" branch of the submit handler can never be taken.
   */
  lemma ValidInputExtractsName(s: string)
    requires ValidInput(s)
    ensures |ExtractPackageName(s)| > 0
    ensures '&' !in ExtractPackageName(s)
  {
    if IsPackageName(s) {
      PackageNameUnchanged(s);
    }
  }

  // ---------------------------------------------------------------------------
  // handleSubmit and download
  // ---------------------------------------------------------------------------

  /** The fields of the provider's app record that the page acts on. */
  datatype Listing = Listing(free: bool, preregister: bool, appId: string, title: string)

  /** What the `/api/app` endpoint answers with. */
  datatype Body =
    | AppRecord(listing: Listing)
    | ErrorRecord  // status 500 with `{ error: 'Internal server error' }`

  /** The outcome of the awaited `fetch` + `response.json()`. */
  datatype Reply =
    | Received(body: Body)
    | FetchFailed  // the promise rejected: network failure or a body that is not JSON

  /** The error line under the input. */
  datatype Message = NoMessage | InvalidFormat | NotPossible | FetchError

  /** The lookup part of the page state. */
  datatype Page = Page(
    input: string,
    message: Message,
    data: Option<Listing>,
    loading: bool,
    downloadReady: bool)

  /** The body of the request posted to `/api/app`. */
  datatype Request = Request(packageName: string, lang: string)

  const InitialPage := Page("", NoMessage, None, false, false)

  /** A reply that lets the page offer a download: `resData.free && !resData.preregister`. */
  predicate Usable(body: Body) {
    body.AppRecord? && body.listing.free && !body.listing.preregister
  }

  /**
   `handleSubmit` on the current page and the reply of the one request it makes.
   Returns the page after the awaited request settles and the request that was
   sent, if any; when no request is sent, `reply` is not looked at.
   */
  function Submit(page: Page, locale: string, reply: Reply): (r: (Page, Option<Request>))
    ensures r.1.None? <==> !ValidInput(Trim(page.input))
    ensures r.1.None? ==> r.0 == page.(message := InvalidFormat)
    ensures r.1.Some? ==> r.1.value == Request(ExtractPackageName(Trim(page.input)), locale)
    ensures r.1.Some? ==> r.0.input == page.input && !r.0.loading
    ensures r.1.Some? ==> (r.0.downloadReady <==> reply.Received? && Usable(reply.body))
    ensures r.1.Some? ==> (r.0.data.Some? <==> r.0.downloadReady)
    ensures r.1.Some? && r.0.downloadReady ==> r.0.data.value == reply.body.listing
    ensures r.1.Some? && r.0.downloadReady ==> r.0.message == NoMessage
    ensures r.1.Some? && reply.FetchFailed? ==> r.0.message == FetchError
    ensures r.1.Some? && reply.Received? && !Usable(reply.body) ==> r.0.message == NotPossible
  {
    var trimmed := Trim(page.input);
    if !ValidInput(trimmed) then
      (page.(message := InvalidFormat), None)
    else
      var name := ExtractPackageName(trimmed);
      ValidInputExtractsName(trimmed);
      if name == "" then
        // unreachable: see ValidInputExtractsName
        (page.(message := InvalidFormat), None)
      else
        var pending := page.(message := NoMessage, downloadReady := false, data := None, loading := true);
        var sent := Some(Request(name, locale));
        match reply
        case FetchFailed =>
          (pending.(message := FetchError, loading := false, downloadReady := false), sent)
        case Received(body) =>
          if Usable(body) then
            (pending.(loading := false, data := Some(body.listing), downloadReady := true), sent)
          else
            (pending.(message := NotPossible, loading := false), sent)
  }

  /** A package name has no white space to trim. */
  lemma TrimKeepsPackageName(s: string)
    requires IsPackageName(s)
    ensures Trim(s) == s
  {
    PackageNameIff(s);
    assert !IsJsSpace(s[0]) && !IsJsSpace(s[|s| - 1]);
  }

  /** A package name typed as it is goes to the endpoint unchanged, with the page's locale. */
  lemma SubmitPackageName(page: Page, locale: string, reply: Reply)
    requires IsPackageName(page.input)
    ensures Submit(page, locale, reply).1 == Some(Request(page.input, locale))
  {
    TrimKeepsPackageName(page.input);
    PackageNameUnchanged(page.input);
  }

  /** The page never offers a download without app data to build the link from. */
  ghost predicate ReadyHasData(page: Page) {
    page.downloadReady ==> page.data.Some?
  }

  lemma SubmitKeepsReadyHasData(page: Page, locale: string, reply: Reply)
    requires ReadyHasData(page)
    ensures ReadyHasData(Submit(page, locale, reply).0)
  {
    if ValidInput(Trim(page.input)) {
      ValidInputExtractsName(Trim(page.input));
    }
  }

  /** Typing into the input changes nothing but the input. */
  function Type(page: Page, text: string): (r: Page)
    ensures r.input == text
    ensures r.(input := page.input) == page
  {
    page.(input := text)
  }

  const ApkHost := "https://d.apkpure.com/b/APK/"
  const ApkQuery := "?version=latest"

  /** The link `download` clicks for an app id. */
  function ApkUrl(appId: string): (url: string)
    ensures IsPrefix(ApkHost, url)
    ensures |url| == |ApkHost| + |appId| + |ApkQuery|
    ensures url[|ApkHost|..|ApkHost| + |appId|] == appId
    ensures url[|url| - |ApkQuery|..] == ApkQuery
  {
    ApkHost + appId + ApkQuery
  }

  /** Reads the app id back out of a download link. */
  function AppIdOfApkUrl(url: string): Option<string> {
    if |url| >= |ApkHost| + |ApkQuery| && IsPrefix(ApkHost, url) && url[|url| - |ApkQuery|..] == ApkQuery
    then Some(url[|ApkHost|..|url| - |ApkQuery|])
    else None
  }

  /** The download link determines the app id it was built from. */
  lemma ApkUrlRoundTrip(appId: string)
    ensures AppIdOfApkUrl(ApkUrl(appId)) == Some(appId)
  {
  }

  lemma ApkUrlInjective(a: string, b: string)
    requires ApkUrl(a) == ApkUrl(b)
    ensures a == b
  {
    ApkUrlRoundTrip(a);
    ApkUrlRoundTrip(b);
  }

  /**
   `download`: the link for the app data on the page. Without data the handler would
   fail on `data.appId`; the button is only shown once a download is ready.
   */
  function DownloadUrl(page: Page): (r: Option<string>)
    ensures r.Some? <==> page.data.Some?
    ensures r.Some? ==> AppIdOfApkUrl(r.value) == Some(page.data.value.appId)
  {
    match page.data
    case None => None
    case Some(listing) =>
      ApkUrlRoundTrip(listing.appId);
      Some(ApkUrl(listing.appId))
  }

  /** What the user can do on the lookup form: type, or submit and await the reply. */
  datatype Action =
    | TypeText(text: string)
    | SubmitWith(locale: string, reply: Reply)

  function Act(page: Page, a: Action): Page {
    match a
    case TypeText(text) => Type(page, text)
    case SubmitWith(locale, reply) => Submit(page, locale, reply).0
  }

  /** The page after a sequence of actions, starting from the freshly loaded page. */
  function Run(actions: seq<Action>): Page
    decreases |actions|
  {
    if actions == [] then InitialPage
    else Act(Run(actions[..|actions| - 1]), actions[|actions| - 1])
  }

  /**
   On every page the user can reach, the download button is shown only with app
   data on the page, so `download` always has a link to follow.
   */
  lemma {:induction false} ReachableReadyHasData(actions: seq<Action>)
    ensures ReadyHasData(Run(actions))
    ensures Run(actions).downloadReady ==> DownloadUrl(Run(actions)).Some?
    decreases |actions|
  {
    if actions != [] {
      var before := Run(actions[..|actions| - 1]);
      ReachableReadyHasData(actions[..|actions| - 1]);
      match actions[|actions| - 1]
      case TypeText(_) =>
      case SubmitWith(locale, reply) =>
        SubmitKeepsReadyHasData(before, locale, reply);
    }
  }
}
