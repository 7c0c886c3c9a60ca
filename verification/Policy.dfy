/** What a result envelope may say: the policy gate of ingestion. */
module Policy {
  import opened JsStrings
  import opened JsonText

  datatype ErrorClass = TRANSIENT | PERMANENT | POLICY

  datatype Chapter = Chapter(
    chapterUrl: Option<string>, mangaUrl: Option<string>, language: Option<string>,
    mdMangaId: Option<string>, extensionName: Option<string>)

  datatype Untracked = Untracked(mangaUrl: string, mangaLanguage: string)

  /** The fields of a submitted result that some gate reads. */
  datatype Envelope = Envelope(
    jobId: string, leaseId: nat, idempotencyKey: string,
    failure: Option<ErrorClass>,
    extension: string, bundleSha256: string, mangadexGroupId: Option<string>,
    updatedChapters: seq<Chapter>, allChapters: Option<seq<Chapter>>,
    untrackedManga: seq<Untracked>, trackedMangadexIds: seq<string>, extensionLanguages: seq<string>)

  datatype Manifest = Manifest(name: string, groupId: string, languages: seq<string>, allowedHosts: seq<string>)

  /** What one pass reads from the database: the pinned bundle, the language map and the tracked titles. */
  datatype Bundle = NotFound | Unreadable | Found(manifest: Manifest)
  datatype View = View(bundle: Bundle, customLanguages: seq<string>, tracked: set<string>)

  // ---- hosts

  /** The host name a URL parser finds, None where it throws. */
  type UrlParser = string -> Option<string>

  predicate EndsWith(s: string, tail: string) {
    |tail| <= |s| && s[|s| - |tail|..] == tail
  }

  predicate MatchesHost(host: string, allowed: string) {
    host == Lower(allowed) || EndsWith(host, "." + Lower(allowed))
  }

  /** `hostAllowed`. */
  predicate HostAllowed(hostOf: UrlParser, url: string, allowedHosts: seq<string>) {
    match hostOf(url)
    case None => false
    case Some(name) => exists i :: 0 <= i < |allowedHosts| && MatchesHost(Lower(name), allowedHosts[i])
  }

  function Labels(host: string): seq<string> {
    Split('.', host)
  }

  ghost predicate IsSuffix<T>(tail: seq<T>, s: seq<T>) {
    |tail| <= |s| && s[|s| - |tail|..] == tail
  }

  lemma {:induction false} SplitConcat(c: char, a: string, b: string)
    ensures Split(c, a + [c] + b) == Split(c, a) + Split(c, b)
  {
    var s := a + [c] + b;
    if a == "" {
      assert s[1..] == b;
    } else {
      assert s[1..] == a[1..] + [c] + b;
      SplitConcat(c, a[1..], b);
      SplitStep(c, a[0], Split(c, a[1..]), Split(c, b));
    }
  }

  lemma {:induction false} SplitStep(c: char, x: char, front: seq<string>, back: seq<string>)
    requires front != []
    ensures [""] + (front + back) == ([""] + front) + back
    ensures [[x] + (front + back)[0]] + (front + back)[1..] == ([[x] + front[0]] + front[1..]) + back
  {
  }

  lemma {:induction false} LabelsOfSubdomain(host: string, allowed: string)
    requires EndsWith(host, "." + allowed)
    ensures IsSuffix(Labels(allowed), Labels(host)) && |Labels(allowed)| < |Labels(host)|
  {
    var front := host[..|host| - |"." + allowed|];
    assert host == front + ("." + allowed);
    assert front + ("." + allowed) == front + ['.'] + allowed;
    SplitConcat('.', front, allowed);
  }

  lemma {:induction false} SubdomainFromLabels(host: string, allowed: string)
    requires IsSuffix(Labels(allowed), Labels(host)) && |Labels(allowed)| < |Labels(host)|
    ensures EndsWith(host, "." + allowed)
  {
    var n := |Labels(host)| - |Labels(allowed)|;
    var front := Labels(host)[..n];
    assert Labels(host) == front + Labels(allowed);
    JoinOfSplit('.', host);
    JoinOfSplit('.', allowed);
    JoinAppend(".", front, Labels(allowed));
    var start := Join(".", front);
    assert host == start + ("." + allowed);
    assert host[|start|..] == "." + allowed;
  }

  /** One allowed entry matches exactly the hosts whose labels end with its labels. */
  lemma {:induction false} MatchesHostByLabels(host: string, allowed: string)
    ensures MatchesHost(host, allowed) <==> IsSuffix(Labels(Lower(allowed)), Labels(host))
  {
    var a := Lower(allowed);
    if EndsWith(host, "." + a) {
      LabelsOfSubdomain(host, a);
    }
    if IsSuffix(Labels(a), Labels(host)) {
      if |Labels(a)| < |Labels(host)| {
        SubdomainFromLabels(host, a);
      } else {
        assert Labels(host) == Labels(a);
        JoinOfSplit('.', host);
        JoinOfSplit('.', a);
      }
    }
  }

  /** A URL passes exactly when some allowed entry's labels are the last labels of its host. */
  lemma {:induction false} HostAllowedByLabels(hostOf: UrlParser, url: string, allowedHosts: seq<string>)
    ensures HostAllowed(hostOf, url, allowedHosts)
       <==> hostOf(url).Some? && (exists i :: 0 <= i < |allowedHosts| &&
                                    IsSuffix(Labels(Lower(allowedHosts[i])), Labels(Lower(hostOf(url).value))))
  {
    if hostOf(url).Some? {
      forall i | 0 <= i < |allowedHosts|
        ensures MatchesHost(Lower(hostOf(url).value), allowedHosts[i])
           <==> IsSuffix(Labels(Lower(allowedHosts[i])), Labels(Lower(hostOf(url).value)))
      {
        MatchesHostByLabels(Lower(hostOf(url).value), allowedHosts[i]);
      }
    }
  }

  // ---- the policy

  datatype Violation =
    | BundleMismatch
    | BundleNotFound
    | ManifestInvalid
    | WrongExtension
    | WrongGroup
    | ExtensionLanguage(language: string)
    | ChapterUrlHost(url: string)
    | MangaUrlHost(url: string)
    | ChapterLanguage(language: string)
    | UntrackedTitle(title: string)
    | ForeignChapter(name: string)
    | UntrackedClaim(title: string)
    | UntrackedUrlHost(url: string)
    | UntrackedLanguage(language: string)

  /** A field that is there and not empty. */
  predicate Given(field: Option<string>) {
    field.Some? && field.value != ""
  }

  predicate LanguageAllowed(v: View, language: string) {
    v.bundle.Found? && (language in v.bundle.manifest.languages || language in v.customLanguages)
  }

  function Chapters(e: Envelope): seq<Chapter> {
    e.updatedChapters + (if e.allChapters.Some? then e.allChapters.value else [])
  }

  predicate ChapterAllowed(hostOf: UrlParser, c: Chapter, v: View)
    requires v.bundle.Found?
  {
    && (Given(c.chapterUrl) ==> HostAllowed(hostOf, c.chapterUrl.value, v.bundle.manifest.allowedHosts))
    && (Given(c.mangaUrl) ==> HostAllowed(hostOf, c.mangaUrl.value, v.bundle.manifest.allowedHosts))
    && (Given(c.language) ==> LanguageAllowed(v, c.language.value))
    && (c.mdMangaId.Some? ==> c.mdMangaId.value in v.tracked)
    && (c.extensionName.Some? ==> c.extensionName.value == v.bundle.manifest.name)
  }

  /** Everything the gate promises of an envelope it lets through. */
  predicate PolicyHolds(hostOf: UrlParser, e: Envelope, sha: string, v: View) {
    && e.bundleSha256 == sha
    && v.bundle.Found?
    && e.extension == v.bundle.manifest.name
    && (Given(e.mangadexGroupId) ==> e.mangadexGroupId.value == v.bundle.manifest.groupId)
    && (forall l :: l in e.extensionLanguages ==> LanguageAllowed(v, l))
    && (forall c :: c in Chapters(e) ==> ChapterAllowed(hostOf, c, v))
    && (forall t :: t in e.trackedMangadexIds ==> t in v.tracked)
    && (forall u :: u in e.untrackedManga ==>
          HostAllowed(hostOf, u.mangaUrl, v.bundle.manifest.allowedHosts) && LanguageAllowed(v, u.mangaLanguage))
  }

  /** Neither the manifest nor the operator's map names the language. */
  ghost predicate Undeclared(v: View, language: string) {
    v.bundle.Found? && language !in v.bundle.manifest.languages + v.customLanguages
  }

  /** The reported violation is one the envelope commits. */
  ghost predicate Commits(hostOf: UrlParser, e: Envelope, sha: string, v: View, why: Violation) {
    match why
    case BundleMismatch => e.bundleSha256 != sha
    case BundleNotFound => v.bundle.NotFound?
    case ManifestInvalid => v.bundle.Unreadable?
    case WrongExtension => v.bundle.Found? && e.extension != v.bundle.manifest.name
    case WrongGroup =>
      v.bundle.Found? && e.mangadexGroupId.Some? && e.mangadexGroupId.value !in {"", v.bundle.manifest.groupId}
    case ExtensionLanguage(l) => l in e.extensionLanguages && Undeclared(v, l)
    case ChapterUrlHost(url) =>
      v.bundle.Found? && !HostAllowed(hostOf, url, v.bundle.manifest.allowedHosts)
      && url != "" && exists c :: c in Chapters(e) && c.chapterUrl == Some(url)
    case MangaUrlHost(url) =>
      v.bundle.Found? && !HostAllowed(hostOf, url, v.bundle.manifest.allowedHosts)
      && url != "" && exists c :: c in Chapters(e) && c.mangaUrl == Some(url)
    case ChapterLanguage(l) => Undeclared(v, l) && l != "" && exists c :: c in Chapters(e) && c.language == Some(l)
    case UntrackedTitle(t) => t !in v.tracked && exists c :: c in Chapters(e) && c.mdMangaId == Some(t)
    case ForeignChapter(name) =>
      v.bundle.Found? && name != v.bundle.manifest.name && exists c :: c in Chapters(e) && c.extensionName == Some(name)
    case UntrackedClaim(t) => t in e.trackedMangadexIds && t !in v.tracked
    case UntrackedUrlHost(url) =>
      v.bundle.Found? && !HostAllowed(hostOf, url, v.bundle.manifest.allowedHosts)
      && exists u :: u in e.untrackedManga && u.mangaUrl == url
    case UntrackedLanguage(l) => Undeclared(v, l) && exists u :: u in e.untrackedManga && u.mangaLanguage == l
  }

  /** The policy holds exactly when the envelope breaks none of the rules. */
  lemma {:induction false} HoldsUnlessBroken(hostOf: UrlParser, e: Envelope, sha: string, v: View)
    ensures PolicyHolds(hostOf, e, sha, v) <==> forall why :: !Commits(hostOf, e, sha, v, why)
  {
    if forall why :: !Commits(hostOf, e, sha, v, why) {
      NoneBrokenHolds(hostOf, e, sha, v);
    }
  }

  lemma {:induction false} NoneBrokenHolds(hostOf: UrlParser, e: Envelope, sha: string, v: View)
    requires forall why :: !Commits(hostOf, e, sha, v, why)
    ensures PolicyHolds(hostOf, e, sha, v)
  {
    assert !Commits(hostOf, e, sha, v, BundleMismatch) && !Commits(hostOf, e, sha, v, BundleNotFound);
    assert !Commits(hostOf, e, sha, v, ManifestInvalid) && !Commits(hostOf, e, sha, v, WrongExtension);
    assert !Commits(hostOf, e, sha, v, WrongGroup);
    forall l | l in e.extensionLanguages ensures LanguageAllowed(v, l) {
      assert !Commits(hostOf, e, sha, v, ExtensionLanguage(l));
    }
    forall c | c in Chapters(e) ensures ChapterAllowed(hostOf, c, v) {
      ChapterBreaksNothing(hostOf, e, sha, v, c);
    }
    forall t | t in e.trackedMangadexIds ensures t in v.tracked {
      assert !Commits(hostOf, e, sha, v, UntrackedClaim(t));
    }
    forall u | u in e.untrackedManga
      ensures HostAllowed(hostOf, u.mangaUrl, v.bundle.manifest.allowedHosts) && LanguageAllowed(v, u.mangaLanguage)
    {
      assert !Commits(hostOf, e, sha, v, UntrackedUrlHost(u.mangaUrl));
      assert !Commits(hostOf, e, sha, v, UntrackedLanguage(u.mangaLanguage));
    }
  }

  lemma {:induction false} ChapterBreaksNothing(hostOf: UrlParser, e: Envelope, sha: string, v: View, c: Chapter)
    requires v.bundle.Found? && c in Chapters(e) && forall why :: !Commits(hostOf, e, sha, v, why)
    ensures ChapterAllowed(hostOf, c, v)
  {
    if c.chapterUrl.Some? { assert !Commits(hostOf, e, sha, v, ChapterUrlHost(c.chapterUrl.value)); }
    if c.mangaUrl.Some? { assert !Commits(hostOf, e, sha, v, MangaUrlHost(c.mangaUrl.value)); }
    if c.language.Some? { assert !Commits(hostOf, e, sha, v, ChapterLanguage(c.language.value)); }
    if c.mdMangaId.Some? { assert !Commits(hostOf, e, sha, v, UntrackedTitle(c.mdMangaId.value)); }
    if c.extensionName.Some? { assert !Commits(hostOf, e, sha, v, ForeignChapter(c.extensionName.value)); }
  }

  /** The first rule one chapter breaks. */
  method CheckChapter(hostOf: UrlParser, c: Chapter, e: Envelope, sha: string, v: View) returns (why: Option<Violation>)
    requires v.bundle.Found? && c in Chapters(e)
    ensures why == None <==> ChapterAllowed(hostOf, c, v)
    ensures why.Some? ==> Commits(hostOf, e, sha, v, why.value)
  {
    var m := v.bundle.manifest;
    if Given(c.chapterUrl) && !HostAllowed(hostOf, c.chapterUrl.value, m.allowedHosts) {
      return Some(ChapterUrlHost(c.chapterUrl.value));
    }
    if Given(c.mangaUrl) && !HostAllowed(hostOf, c.mangaUrl.value, m.allowedHosts) {
      return Some(MangaUrlHost(c.mangaUrl.value));
    }
    if Given(c.language) && !LanguageAllowed(v, c.language.value) {
      return Some(ChapterLanguage(c.language.value));
    }
    if c.mdMangaId.Some? && c.mdMangaId.value !in v.tracked {
      return Some(UntrackedTitle(c.mdMangaId.value));
    }
    if c.extensionName.Some? && c.extensionName.value != m.name {
      return Some(ForeignChapter(c.extensionName.value));
    }
    return None;
  }

  /** `validatePolicy`: nothing is reported exactly when every rule holds of every part of the envelope. */
  method ValidatePolicy(hostOf: UrlParser, e: Envelope, sha: string, v: View) returns (why: Option<Violation>)
    ensures why == None <==> PolicyHolds(hostOf, e, sha, v)
    ensures why.Some? ==> Commits(hostOf, e, sha, v, why.value)
  {
    if e.bundleSha256 != sha { return Some(BundleMismatch); }
    if v.bundle.NotFound? { return Some(BundleNotFound); }
    if v.bundle.Unreadable? { return Some(ManifestInvalid); }
    var m := v.bundle.manifest;
    if e.extension != m.name { return Some(WrongExtension); }
    if Given(e.mangadexGroupId) && e.mangadexGroupId.value != m.groupId { return Some(WrongGroup); }
    for i := 0 to |e.extensionLanguages|
      invariant forall k :: 0 <= k < i ==> LanguageAllowed(v, e.extensionLanguages[k])
    {
      if !LanguageAllowed(v, e.extensionLanguages[i]) {
        return Some(ExtensionLanguage(e.extensionLanguages[i]));
      }
    }
    var chapters := Chapters(e);
    for i := 0 to |chapters|
      invariant forall k :: 0 <= k < i ==> ChapterAllowed(hostOf, chapters[k], v)
    {
      why := CheckChapter(hostOf, chapters[i], e, sha, v);
      if why.Some? {
        return;
      }
    }
    for i := 0 to |e.trackedMangadexIds|
      invariant forall k :: 0 <= k < i ==> e.trackedMangadexIds[k] in v.tracked
    {
      if e.trackedMangadexIds[i] !in v.tracked {
        return Some(UntrackedClaim(e.trackedMangadexIds[i]));
      }
    }
    for i := 0 to |e.untrackedManga|
      invariant forall k :: 0 <= k < i ==>
        HostAllowed(hostOf, e.untrackedManga[k].mangaUrl, m.allowedHosts)
          && LanguageAllowed(v, e.untrackedManga[k].mangaLanguage)
    {
      var u := e.untrackedManga[i];
      if !HostAllowed(hostOf, u.mangaUrl, m.allowedHosts) {
        return Some(UntrackedUrlHost(u.mangaUrl));
      }
      if !LanguageAllowed(v, u.mangaLanguage) {
        return Some(UntrackedLanguage(u.mangaLanguage));
      }
    }
    return None;
  }
}
