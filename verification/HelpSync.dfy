/**
 * Syncing the markdown help articles into the help tables
 * (scripts/sync-help-articles.ts) and reading them by role
 * (src/lib/server/help/help-service.ts).
 */
module HelpSync {
  import opened Wrappers

  // --- Files and tables ----------------------------------------------------

  datatype FileDoc = FileDoc(title: string, slug: string, category: string, summary: Option<string>,
                             minRole: Option<string>, sortOrder: Option<int>, body: string)

  datatype Category = Category(id: string, name: string, minRole: string, sortOrder: nat)

  datatype Article = Article(id: string, categoryId: string, title: string, summary: Option<string>, content: string,
                             source: string, minRole: string, published: bool, sortOrder: int,
                             createdAt: int, updatedAt: int)

  /** Both tables have a unique slug, which serves as the key; `drawn` counts the random ids used. */
  datatype Store = Store(categories: map<string, Category>, articles: map<string, Article>, drawn: nat)

  const STATIC := "static"

  predicate IsStatic(articles: map<string, Article>, slug: string) {
    slug in articles && articles[slug].source == STATIC
  }

  function Role(f: FileDoc): string {
    f.minRole.GetOr("member")
  }

  const ROLES := {"admin", "staff", "sustaining", "member"}

  /** Lower is more privileged; an unknown role counts as `member`. */
  function RoleLevel(role: string): nat {
    if role == "admin" then 0 else if role == "staff" then 1 else if role == "sustaining" then 2 else 3
  }

  function Slugs(files: seq<FileDoc>): set<string> {
    if files == [] then {} else Slugs(files[..|files| - 1]) + {files[|files| - 1].slug}
  }

  lemma {:induction false} SlugsAreFileSlugs(files: seq<FileDoc>)
    ensures forall slug :: slug in Slugs(files) <==> exists f :: f in files && f.slug == slug
  {
    if files == [] {
    } else {
      SlugsAreFileSlugs(files[..|files| - 1]);
      assert files == files[..|files| - 1] + [files[|files| - 1]];
    }
  }

  // --- Categories ----------------------------------------------------------

  /** The `categoryMinRole` fold. */
  function MinRoles(files: seq<FileDoc>): map<string, string> {
    if files == [] then map[] else
    var roles, f := MinRoles(files[..|files| - 1]), files[|files| - 1];
    if f.category !in roles || RoleLevel(Role(f)) > RoleLevel(roles[f.category]) then roles[f.category := Role(f)]
    else roles
  }

  /** The category set in insertion order. */
  function CategorySlugs(files: seq<FileDoc>): seq<string> {
    if files == [] then [] else
    var slugs, c := CategorySlugs(files[..|files| - 1]), files[|files| - 1].category;
    if c in slugs then slugs else slugs + [c]
  }

  predicate IsWordChar(c: char) {
    'a' <= c <= 'z' || 'A' <= c <= 'Z' || '0' <= c <= '9' || c == '_'
  }

  function UpperChar(c: char): char {
    if 'a' <= c <= 'z' then c - 'a' + 'A' else c
  }

  /** Dashes become spaces and every word starts with a capital. */
  function CategoryName(slug: string): string {
    var words := seq(|slug|, i requires 0 <= i < |slug| => if slug[i] == '-' then ' ' else slug[i]);
    seq(|slug|, i requires 0 <= i < |slug| =>
      if IsWordChar(words[i]) && (i == 0 || !IsWordChar(words[i - 1])) then UpperChar(words[i]) else words[i])
  }

  /** A dash becomes a space, a small letter that no letter, digit or underscore precedes a capital, the rest stays. */
  lemma CategoryNameAt(slug: string, i: nat)
    requires i < |slug|
    ensures |CategoryName(slug)| == |slug|
    ensures var c, shown := slug[i], CategoryName(slug)[i];
      var continues := i > 0 && var p := slug[i - 1];
        'a' <= p <= 'z' || 'A' <= p <= 'Z' || '0' <= p <= '9' || p == '_';
      && (c == '-' ==> shown == ' ')
      && ('a' <= c <= 'z' && !continues ==> shown == c - 'a' + 'A')
      && (c != '-' && !('a' <= c <= 'z' && !continues) ==> shown == c)
  {
  }

  /** `position` is how many categories the run has handled before this one. */
  function UpsertCategory(uuid: nat -> string, s: Store, slug: string, minRole: string, position: nat): Store {
    if slug in s.categories then
      s.(categories := s.categories[slug := s.categories[slug].(minRole := minRole)])
    else
      s.(categories := s.categories[slug := Category(uuid(s.drawn), CategoryName(slug), minRole, position)],
         drawn := s.drawn + 1)
  }

  function UpsertCategories(uuid: nat -> string, s: Store, slugs: seq<string>, roles: map<string, string>): Store {
    if slugs == [] then s else
    var n := |slugs| - 1;
    var role := if slugs[n] in roles then roles[slugs[n]] else "member";
    UpsertCategory(uuid, UpsertCategories(uuid, s, slugs[..n], roles), slugs[n], role, n)
  }

  // --- Articles ------------------------------------------------------------

  /** `Threw` leaves behind what was written before the exception. */
  datatype Outcome = Synced(store: Store) | Threw(store: Store)

  function CategoryId(s: Store, slug: string): string {
    if slug in s.categories then s.categories[slug].id else ""
  }

  /** A slug held by an article of another source violates the unique constraint. */
  function UpsertArticle(uuid: nat -> string, s: Store, f: FileDoc, now: int): Outcome {
    if IsStatic(s.articles, f.slug) then
      var a := s.articles[f.slug].(title := f.title, categoryId := CategoryId(s, f.category), summary := f.summary,
                                   content := f.body, minRole := Role(f), sortOrder := f.sortOrder.GetOr(0),
                                   updatedAt := now);
      Synced(s.(articles := s.articles[f.slug := a]))
    else if f.slug in s.articles then
      Threw(s)
    else
      var a := Article(uuid(s.drawn), CategoryId(s, f.category), f.title, f.summary, f.body, STATIC, Role(f), false,
                       f.sortOrder.GetOr(0), now, now);
      Synced(s.(articles := s.articles[f.slug := a], drawn := s.drawn + 1))
  }

  function UpsertArticles(uuid: nat -> string, s: Store, files: seq<FileDoc>, now: int): Outcome {
    if files == [] then Synced(s) else
    var before := UpsertArticles(uuid, s, files[..|files| - 1], now);
    if before.Threw? then before else UpsertArticle(uuid, before.store, files[|files| - 1], now)
  }

  /** Deleting the static articles no file stands for. */
  function Sweep(s: Store, slugs: set<string>): Store {
    s.(articles := map slug | slug in s.articles && (slug in slugs || s.articles[slug].source != STATIC)
                     :: s.articles[slug])
  }

  function Sync(uuid: nat -> string, s: Store, files: seq<FileDoc>, now: int): Outcome {
    var withCategories := UpsertCategories(uuid, s, CategorySlugs(files), MinRoles(files));
    var done := UpsertArticles(uuid, withCategories, files, now);
    if done.Threw? || files == [] then done else Synced(Sweep(done.store, Slugs(files)))
  }

  // --- What the article loop leaves behind ---------------------------------

  function LastFile(files: seq<FileDoc>, slug: string): FileDoc
    requires slug in Slugs(files)
  {
    if files[|files| - 1].slug == slug then files[|files| - 1]
    else LastFile(files[..|files| - 1], slug)
  }

  /** The row says what the file says. */
  ghost predicate Matches(a: Article, f: FileDoc, s: Store, now: int) {
    a == Article(a.id, CategoryId(s, f.category), f.title, f.summary, f.body, STATIC, Role(f), a.published,
                 f.sortOrder.GetOr(0), a.createdAt, now)
  }

  /** Where the article loop over `files` leaves one slug. */
  ghost predicate WrittenAt(s: Store, files: seq<FileDoc>, now: int, after: map<string, Article>, slug: string) {
    if slug in Slugs(files) then
      && slug in after
      && Matches(after[slug], LastFile(files, slug), s, now)
      && (if slug in s.articles then Survives(s.articles[slug], after[slug])
          else !after[slug].published && after[slug].createdAt == now)
    else
      (slug in after <==> slug in s.articles) && (slug in after ==> after[slug] == s.articles[slug])
  }

  /** The row is still the same row, published or not as before. */
  predicate Survives(before: Article, after: Article) {
    after.id == before.id && after.published == before.published && after.createdAt == before.createdAt
  }

  ghost predicate Written(s: Store, files: seq<FileDoc>, now: int, after: map<string, Article>) {
    forall slug :: WrittenAt(s, files, now, after, slug)
  }

  /** No file claims a slug that an editor-authored article holds. */
  predicate NoSlugTaken(s: Store, files: seq<FileDoc>) {
    forall f :: f in files ==> f.slug !in s.articles || s.articles[f.slug].source == STATIC
  }

  lemma WrittenThen(s: Store, files: seq<FileDoc>, now: int, mid: Store, uuid: nat -> string)
    requires files != [] && Written(s, files[..|files| - 1], now, mid.articles)
    requires mid.categories == s.categories
    requires var slug := files[|files| - 1].slug; slug in s.articles ==> s.articles[slug].source == STATIC
    ensures var done := UpsertArticle(uuid, mid, files[|files| - 1], now);
      done.Synced? && Written(s, files, now, done.store.articles)
  {
    var init, f := files[..|files| - 1], files[|files| - 1];
    assert WrittenAt(s, init, now, mid.articles, f.slug);
    var done := UpsertArticle(uuid, mid, f, now);
    forall slug ensures WrittenAt(s, files, now, done.store.articles, slug) {
      assert WrittenAt(s, init, now, mid.articles, slug);
    }
  }

  /** The article loop succeeds iff no slug is taken, and then writes each file's last version. */
  lemma {:induction false} ArticlesAreWritten(uuid: nat -> string, s: Store, files: seq<FileDoc>, now: int)
    ensures var done := UpsertArticles(uuid, s, files, now);
      && done.store.categories == s.categories
      && (done.Synced? <==> NoSlugTaken(s, files))
      && (done.Synced? ==> Written(s, files, now, done.store.articles))
      && (done.Synced? && Slugs(files) <= s.articles.Keys ==> done.store.drawn == s.drawn)
  {
    if files == [] {
    } else {
      var init, f := files[..|files| - 1], files[|files| - 1];
      assert files == init + [f];
      ArticlesAreWritten(uuid, s, init, now);
      var mid := UpsertArticles(uuid, s, init, now);
      if mid.Synced? {
        assert WrittenAt(s, init, now, mid.store.articles, f.slug);
        if f.slug in s.articles && s.articles[f.slug].source != STATIC {
          SlugsAreFileSlugs(init);
        } else {
          WrittenThen(s, files, now, mid.store, uuid);
        }
      }
    }
  }

  // --- What the category loop leaves behind --------------------------------

  lemma {:induction false} CategorySlugsAreDistinct(files: seq<FileDoc>)
    ensures forall c :: c in CategorySlugs(files) <==> c in MinRoles(files)
    ensures forall c :: c in CategorySlugs(files) <==> exists f :: f in files && f.category == c
    ensures forall i, j :: 0 <= i < j < |CategorySlugs(files)| ==> CategorySlugs(files)[i] != CategorySlugs(files)[j]
  {
    if files == [] {
    } else {
      CategorySlugsAreDistinct(files[..|files| - 1]);
      assert files == files[..|files| - 1] + [files[|files| - 1]];
    }
  }

  /** Categories are taken in the order in which they first appear: an earlier list of files gives a prefix. */
  lemma {:induction false} CategorySlugsKeepOrder(files: seq<FileDoc>, i: nat)
    requires i <= |files|
    ensures CategorySlugs(files[..i]) <= CategorySlugs(files)
  {
    if i == |files| {
      assert files[..i] == files;
    } else {
      CategorySlugsKeepOrder(files[..|files| - 1], i);
      assert files[..|files| - 1][..i] == files[..i];
    }
  }

  /** Handled categories exist with their derived role; the others keep their rows; articles are untouched. */
  lemma {:induction false} CategoriesAreWritten(uuid: nat -> string, s: Store, slugs: seq<string>,
                                                roles: map<string, string>)
    requires forall c :: c in slugs ==> c in roles
    ensures var done := UpsertCategories(uuid, s, slugs, roles);
      && done.articles == s.articles
      && (forall c :: c in done.categories <==> c in s.categories || c in slugs)
      && (forall c :: c in slugs ==> done.categories[c].minRole == roles[c])
      && (forall c :: c in s.categories && c !in slugs ==> done.categories[c] == s.categories[c])
      && (forall c :: c in s.categories && c in slugs ==> done.categories[c] == s.categories[c].(minRole := roles[c]))
  {
    if slugs == [] {
    } else {
      var n := |slugs| - 1;
      assert slugs == slugs[..n] + [slugs[n]];
      CategoriesAreWritten(uuid, s, slugs[..n], roles);
    }
  }

  lemma {:induction false} NotYetHandled(uuid: nat -> string, s: Store, slugs: seq<string>,
                                         roles: map<string, string>, c: string)
    requires c !in slugs && c !in s.categories
    ensures c !in UpsertCategories(uuid, s, slugs, roles).categories
  {
    if slugs == [] {
    } else {
      assert slugs[|slugs| - 1] in slugs;
      NotYetHandled(uuid, s, slugs[..|slugs| - 1], roles, c);
    }
  }

  /** A category new to the table is named after its slug and sorted by the place it first appears at. */
  lemma {:induction false} NewCategoryIsPlaced(uuid: nat -> string, s: Store, slugs: seq<string>,
                                               roles: map<string, string>, i: nat)
    requires forall j, k :: 0 <= j < k < |slugs| ==> slugs[j] != slugs[k]
    requires i < |slugs| && slugs[i] !in s.categories
    ensures var done := UpsertCategories(uuid, s, slugs, roles);
      slugs[i] in done.categories && done.categories[slugs[i]].sortOrder == i
      && done.categories[slugs[i]].name == CategoryName(slugs[i])
  {
    var n := |slugs| - 1;
    if i < n {
      NewCategoryIsPlaced(uuid, s, slugs[..n], roles, i);
    } else {
      NotYetHandled(uuid, s, slugs[..n], roles, slugs[n]);
    }
  }

  lemma {:induction false} LengthOfDistinct(slugs: seq<string>)
    requires forall j, k :: 0 <= j < k < |slugs| ==> slugs[j] != slugs[k]
    ensures |set c | c in slugs| == |slugs|
  {
    if slugs == [] {
    } else {
      var init, last := slugs[..|slugs| - 1], slugs[|slugs| - 1];
      LengthOfDistinct(init);
      assert slugs == init + [last];
      assert (set c | c in slugs) == (set c | c in init) + {last};
    }
  }

  lemma {:induction false} SettledCategoriesStay(uuid: nat -> string, s: Store, slugs: seq<string>,
                                                 roles: map<string, string>)
    requires forall c :: c in slugs ==> c in roles && c in s.categories && s.categories[c].minRole == roles[c]
    ensures UpsertCategories(uuid, s, slugs, roles) == s
  {
    if slugs == [] {
    } else {
      var n := |slugs| - 1;
      assert slugs[n] in slugs;
      SettledCategoriesStay(uuid, s, slugs[..n], roles);
      assert s.categories[slugs[n] := s.categories[slugs[n]]] == s.categories;
    }
  }

  // --- Main results about a sync -------------------------------------------

  /** A sync completes exactly when no file's slug belongs to an editor-authored article. */
  lemma SyncCompletesIff(uuid: nat -> string, s: Store, files: seq<FileDoc>, now: int)
    ensures Sync(uuid, s, files, now).Synced? <==> NoSlugTaken(s, files)
  {
    CategorySlugsAreDistinct(files);
    CategoriesAreWritten(uuid, s, CategorySlugs(files), MinRoles(files));
    ArticlesAreWritten(uuid, UpsertCategories(uuid, s, CategorySlugs(files), MinRoles(files)), files, now);
  }

  /** A file's row after a sync: the file's text, and the old row's identity and `published`, or a draft. */
  ghost predicate MirrorsFile(before: Store, files: seq<FileDoc>, now: int, after: Store, slug: string)
    requires slug in Slugs(files)
  {
    && IsStatic(after.articles, slug)
    && Matches(after.articles[slug], LastFile(files, slug), after, now)
    && (if slug in before.articles then Survives(before.articles[slug], after.articles[slug])
        else !after.articles[slug].published && after.articles[slug].createdAt == now)
  }

  /** An editor-authored article is where it was, as it was. */
  ghost predicate EditorRowKept(before: Store, after: Store, slug: string) {
    && ((slug in after.articles && after.articles[slug].source != STATIC)
        <==> (slug in before.articles && before.articles[slug].source != STATIC))
    && (slug in after.articles && after.articles[slug].source != STATIC ==>
      after.articles[slug] == before.articles[slug])
  }

  lemma SweptSlug(s: Store, files: seq<FileDoc>, now: int, mid: Store, written: Store, slug: string)
    requires mid.articles == s.articles && written.categories == mid.categories
    requires WrittenAt(mid, files, now, written.articles, slug)
    requires slug in Slugs(files) ==> slug in s.articles ==> s.articles[slug].source == STATIC
    ensures var after := Sweep(written, Slugs(files));
      && (IsStatic(after.articles, slug) <==> slug in Slugs(files))
      && (slug in Slugs(files) ==> MirrorsFile(s, files, now, after, slug))
      && EditorRowKept(s, after, slug)
  {
  }

  /**
   * A completed sync of at least one file: the static slugs are the file slugs, `published` survives
   * on surviving rows, new rows are drafts, and editor-authored rows are neither changed nor removed nor made.
   */
  lemma SyncMirrorsFiles(uuid: nat -> string, s: Store, files: seq<FileDoc>, now: int)
    requires files != [] && NoSlugTaken(s, files)
    ensures Sync(uuid, s, files, now).Synced?
    ensures var after := Sync(uuid, s, files, now).store;
      && (forall slug :: IsStatic(after.articles, slug) <==> slug in Slugs(files))
      && (forall slug :: slug in Slugs(files) ==> MirrorsFile(s, files, now, after, slug))
      && (forall slug :: EditorRowKept(s, after, slug))
  {
    CategorySlugsAreDistinct(files);
    CategoriesAreWritten(uuid, s, CategorySlugs(files), MinRoles(files));
    var mid := UpsertCategories(uuid, s, CategorySlugs(files), MinRoles(files));
    ArticlesAreWritten(uuid, mid, files, now);
    SlugsAreFileSlugs(files);
    var written := UpsertArticles(uuid, mid, files, now).store;
    var after := Sync(uuid, s, files, now).store;
    assert after == Sweep(written, Slugs(files));
    forall slug
      ensures IsStatic(after.articles, slug) <==> slug in Slugs(files)
      ensures slug in Slugs(files) ==> MirrorsFile(s, files, now, after, slug)
      ensures EditorRowKept(s, after, slug)
    {
      assert WrittenAt(mid, files, now, written.articles, slug);
      if slug in Slugs(files) {
        var f :| f in files && f.slug == slug;
      }
      SweptSlug(s, files, now, mid, written, slug);
    }
  }

  /** A sync without files changes nothing. */
  lemma EmptySyncKeepsAll(uuid: nat -> string, s: Store, now: int)
    ensures Sync(uuid, s, [], now) == Synced(s)
  {
  }

  /** A completed sync removes a static article exactly when there are files and none of them has its slug. */
  lemma SweepsExactlyOrphans(uuid: nat -> string, s: Store, files: seq<FileDoc>, now: int, slug: string)
    requires NoSlugTaken(s, files) && IsStatic(s.articles, slug)
    ensures Sync(uuid, s, files, now).Synced?
    ensures slug !in Sync(uuid, s, files, now).store.articles
      <==> files != [] && forall f :: f in files ==> f.slug != slug
  {
    SlugsAreFileSlugs(files);
    if files == [] {
      EmptySyncKeepsAll(uuid, s, now);
    } else {
      SyncMirrorsFiles(uuid, s, files, now);
      var after := Sync(uuid, s, files, now).store;
      assert EditorRowKept(s, after, slug);
      assert IsStatic(after.articles, slug) <==> slug in Slugs(files);
    }
  }

  predicate HoldsTakenSlug(s: Store, f: FileDoc) {
    f.slug in s.articles && s.articles[f.slug].source != STATIC
  }

  lemma {:induction false} LoopStopsAtTakenSlug(uuid: nat -> string, s: Store, files: seq<FileDoc>,
                                                now: int)
    returns (i: nat)
    requires !NoSlugTaken(s, files)
    ensures i < |files| && NoSlugTaken(s, files[..i]) && HoldsTakenSlug(s, files[i])
    ensures UpsertArticles(uuid, s, files, now) == Threw(UpsertArticles(uuid, s, files[..i], now).store)
  {
    var n := |files| - 1;
    assert files == files[..n] + [files[n]];
    ArticlesAreWritten(uuid, s, files[..n], now);
    ArticlesAreWritten(uuid, s, files, now);
    if NoSlugTaken(s, files[..n]) {
      i := n;
    } else {
      i := LoopStopsAtTakenSlug(uuid, s, files[..n], now);
      assert files[..n][..i] == files[..i];
    }
  }

  /**
   * A sync that throws stops at the first taken slug. It has given every category its role, written
   * the files before that one, and removed nothing.
   */
  lemma ThrownSyncLeaves(uuid: nat -> string, s: Store, files: seq<FileDoc>, now: int) returns (i: nat)
    requires !NoSlugTaken(s, files)
    ensures i < |files| && NoSlugTaken(s, files[..i]) && HoldsTakenSlug(s, files[i])
    ensures var mid := UpsertCategories(uuid, s, CategorySlugs(files), MinRoles(files));
      var done := Sync(uuid, s, files, now);
      && done.Threw? && done.store.categories == mid.categories
      && Written(mid, files[..i], now, done.store.articles)
      && s.articles.Keys <= done.store.articles.Keys
  {
    var mid := UpsertCategories(uuid, s, CategorySlugs(files), MinRoles(files));
    CategorySlugsAreDistinct(files);
    CategoriesAreWritten(uuid, s, CategorySlugs(files), MinRoles(files));
    i := LoopStopsAtTakenSlug(uuid, mid, files, now);
    ArticlesAreWritten(uuid, mid, files[..i], now);
    var after := Sync(uuid, s, files, now).store.articles;
    forall slug | slug in s.articles ensures slug in after {
      assert WrittenAt(mid, files[..i], now, after, slug);
    }
  }

  /** One file whose slug an editor's article holds: the sync throws. */
  lemma EditorSlugStopsSync(uuid: nat -> string, now: int)
    ensures var a := Article("1", "c1", "T", None, "text", "dynamic", "member", true, 0, 0, 0);
      var s := Store(map["c" := Category("c1", "C", "member", 0)], map["a" := a], 0);
      Sync(uuid, s, [FileDoc("T", "a", "c", None, None, None, "")], now).Threw?
  {
    var a := Article("1", "c1", "T", None, "text", "dynamic", "member", true, 0, 0, 0);
    var s := Store(map["c" := Category("c1", "C", "member", 0)], map["a" := a], 0);
    var f := FileDoc("T", "a", "c", None, None, None, "");
    assert |"dynamic"| != |STATIC|;
    assert f in [f] && !NoSlugTaken(s, [f]);
    SyncCompletesIff(uuid, s, [f], now);
  }

  /** The same store with every static article stamped `now`. */
  function Touch(s: Store, now: int): Store {
    s.(articles := map slug | slug in s.articles ::
         if s.articles[slug].source == STATIC then s.articles[slug].(updatedAt := now) else s.articles[slug])
  }

  /** On a store that a sync left behind, the category loop changes nothing and the article loop draws no id. */
  lemma SyncedStoreIsSettled(uuid: nat -> string, s: Store, files: seq<FileDoc>, now: int)
    requires files != [] && NoSlugTaken(s, files)
    ensures var s1 := Sync(uuid, s, files, now).store;
      && UpsertCategories(uuid, s1, CategorySlugs(files), MinRoles(files)) == s1
      && NoSlugTaken(s1, files) && Slugs(files) <= s1.articles.Keys
  {
    SyncMirrorsFiles(uuid, s, files, now);
    var s1 := Sync(uuid, s, files, now).store;
    var slugs, roles := CategorySlugs(files), MinRoles(files);
    CategorySlugsAreDistinct(files);
    CategoriesAreWritten(uuid, s, slugs, roles);
    ArticlesAreWritten(uuid, UpsertCategories(uuid, s, slugs, roles), files, now);
    SettledCategoriesStay(uuid, s1, slugs, roles);
    SlugsAreFileSlugs(files);
    forall f | f in files ensures IsStatic(s1.articles, f.slug) {
      assert f.slug in Slugs(files);
    }
    forall slug | slug in Slugs(files) ensures slug in s1.articles {
      assert IsStatic(s1.articles, slug);
    }
  }

  lemma ResyncedRow(s: Store, files: seq<FileDoc>, now: int, s1: Store, later: int, s2: Store, slug: string)
    requires s2.categories == s1.categories && EditorRowKept(s1, s2, slug)
    requires IsStatic(s1.articles, slug) <==> slug in Slugs(files)
    requires IsStatic(s2.articles, slug) <==> slug in Slugs(files)
    requires slug in Slugs(files) ==> MirrorsFile(s, files, now, s1, slug) && MirrorsFile(s1, files, later, s2, slug)
    ensures slug in s2.articles <==> slug in s1.articles
    ensures slug in s1.articles ==> s2.articles[slug] == Touch(s1, later).articles[slug]
  {
  }

  /** Syncing the same files again changes nothing but `updatedAt`. */
  lemma SecondSyncOnlyTouches(uuid: nat -> string, s: Store, files: seq<FileDoc>, now: int, later: int)
    requires files != [] && NoSlugTaken(s, files)
    ensures var first := Sync(uuid, s, files, now);
      first.Synced? && Sync(uuid, first.store, files, later) == Synced(Touch(first.store, later))
  {
    SyncMirrorsFiles(uuid, s, files, now);
    var s1 := Sync(uuid, s, files, now).store;
    SyncedStoreIsSettled(uuid, s, files, now);
    ArticlesAreWritten(uuid, s1, files, later);
    SyncMirrorsFiles(uuid, s1, files, later);
    var s2 := Sync(uuid, s1, files, later).store;
    forall slug ensures slug in s2.articles <==> slug in s1.articles
      ensures slug in s1.articles ==> s2.articles[slug] == Touch(s1, later).articles[slug]
    {
      ResyncedRow(s, files, now, s1, later, s2, slug);
    }
    assert s2.articles == Touch(s1, later).articles;
  }

  /** A new category is sorted by how many other categories the files before its first one have. */
  lemma NewCategoryIsSorted(uuid: nat -> string, s: Store, files: seq<FileDoc>, now: int, i: nat)
    requires i < |files| && files[i].category !in s.categories
    requires forall j :: 0 <= j < i ==> files[j].category != files[i].category
    ensures var after, c := Sync(uuid, s, files, now).store, files[i].category;
      c in after.categories && after.categories[c].sortOrder == |set f | f in files[..i] :: f.category|
  {
    var slugs, earlier := CategorySlugs(files), CategorySlugs(files[..i]);
    CategorySlugsAreDistinct(files);
    CategorySlugsAreDistinct(files[..i]);
    assert files[i] in files && files[i].category !in earlier;
    assert files[..i + 1][..i] == files[..i];
    assert CategorySlugs(files[..i + 1]) == earlier + [files[i].category];
    CategorySlugsKeepOrder(files, i + 1);
    assert slugs[|earlier|] == files[i].category;
    NewCategoryIsPlaced(uuid, s, slugs, MinRoles(files), |earlier|);
    ArticlesAreWritten(uuid, UpsertCategories(uuid, s, slugs, MinRoles(files)), files, now);
    LengthOfDistinct(earlier);
    assert (set f | f in files[..i] :: f.category) == (set c | c in earlier);
  }

  /** The ids the article table holds are its primary key. */
  ghost predicate ArticleIdsDiffer(s: Store) {
    forall x, y :: x in s.articles && y in s.articles && s.articles[x].id == s.articles[y].id ==> x == y
  }

  /** The ids still to be drawn are new to the articles and pairwise different. */
  ghost predicate FreshArticleIds(uuid: nat -> string, s: Store) {
    && (forall i, x :: s.drawn <= i && x in s.articles ==> s.articles[x].id != uuid(i))
    && (forall i, j :: s.drawn <= i < j ==> uuid(i) != uuid(j))
  }

  lemma {:induction false} CategoriesOnlyDraw(uuid: nat -> string, s: Store, slugs: seq<string>,
                                              roles: map<string, string>)
    ensures var done := UpsertCategories(uuid, s, slugs, roles); done.articles == s.articles && done.drawn >= s.drawn
  {
    if slugs == [] {
    } else {
      CategoriesOnlyDraw(uuid, s, slugs[..|slugs| - 1], roles);
    }
  }

  lemma {:induction false} ArticleIdsStayDifferent(uuid: nat -> string, s: Store, files: seq<FileDoc>, now: int)
    requires ArticleIdsDiffer(s) && FreshArticleIds(uuid, s)
    ensures var done := UpsertArticles(uuid, s, files, now).store;
      ArticleIdsDiffer(done) && FreshArticleIds(uuid, done)
  {
    if files == [] {
    } else {
      ArticleIdsStayDifferent(uuid, s, files[..|files| - 1], now);
    }
  }

  /** A sync, completed or not, gives no two articles one id. */
  lemma SyncKeepsArticleIdsDifferent(uuid: nat -> string, s: Store, files: seq<FileDoc>, now: int)
    requires ArticleIdsDiffer(s) && FreshArticleIds(uuid, s)
    ensures ArticleIdsDiffer(Sync(uuid, s, files, now).store)
  {
    CategoriesOnlyDraw(uuid, s, CategorySlugs(files), MinRoles(files));
    ArticleIdsStayDifferent(uuid, UpsertCategories(uuid, s, CategorySlugs(files), MinRoles(files)), files, now);
  }

  /** A row is for members where the slug's last file names no role, and first where it names no sort order. */
  lemma SyncedArticleDefaults(uuid: nat -> string, s: Store, files: seq<FileDoc>, now: int, slug: string)
    requires NoSlugTaken(s, files) && slug in Slugs(files)
    ensures var after := Sync(uuid, s, files, now).store;
      slug in after.articles
      && (match LastFile(files, slug).minRole
          case None => after.articles[slug].minRole == "member"
          case Some(role) => after.articles[slug].minRole == role)
      && (match LastFile(files, slug).sortOrder
          case None => after.articles[slug].sortOrder == 0
          case Some(n) => after.articles[slug].sortOrder == n)
  {
    SyncMirrorsFiles(uuid, s, files, now);
    assert MirrorsFile(s, files, now, Sync(uuid, s, files, now).store, slug);
  }

  // --- Who a category is shown to ------------------------------------------

  /** The sync's own reading of levels: the role is at least as privileged as the audience. */
  predicate InAudience(user: string, minRole: string) {
    RoleLevel(user) <= RoleLevel(minRole)
  }

  /** The help service's reading: `minRole` is one of the known roles at or below the user's level. */
  predicate Admits(user: string, minRole: string) {
    minRole in ROLES && RoleLevel(minRole) >= RoleLevel(user)
  }

  /** Everybody reads what is for members; what is for a privileged role, that role and those above it. */
  lemma AdmitsIff(user: string, minRole: string)
    ensures Admits(user, minRole) <==>
      || minRole == "member"
      || (minRole == "sustaining" && user in {"sustaining", "staff", "admin"})
      || (minRole == "staff" && user in {"staff", "admin"})
      || (minRole == "admin" && user == "admin")
  {
    assert |"member"| == 6 && |"admin"| == 5 && |"staff"| == 5 && |"sustaining"| == 10 && "admin"[0] != "staff"[0];
  }

  ghost predicate SomeFileAdmits(files: seq<FileDoc>, category: string, user: string) {
    exists f :: f in files && f.category == category && Admits(user, Role(f))
  }

  ghost predicate SomeFileInAudience(files: seq<FileDoc>, category: string, user: string) {
    exists f :: f in files && f.category == category && InAudience(user, Role(f))
  }

  /** The derived role of a category is one of its files' roles, and none of them is more permissive. */
  lemma {:induction false} MinRoleIsMostPermissive(files: seq<FileDoc>, category: string)
    ensures category in MinRoles(files) <==> exists f :: f in files && f.category == category
    ensures category in MinRoles(files) ==>
      && (exists f :: f in files && f.category == category && Role(f) == MinRoles(files)[category])
      && (forall f :: f in files && f.category == category ==>
        RoleLevel(Role(f)) <= RoleLevel(MinRoles(files)[category]))
  {
    if files == [] {
    } else {
      MinRoleIsMostPermissive(files[..|files| - 1], category);
      assert files == files[..|files| - 1] + [files[|files| - 1]];
    }
  }

  lemma SyncedCategoryRole(uuid: nat -> string, s: Store, files: seq<FileDoc>, now: int, category: string)
    requires category in CategorySlugs(files)
    ensures var after := Sync(uuid, s, files, now).store;
      category in MinRoles(files) && category in after.categories
      && after.categories[category].minRole == MinRoles(files)[category]
  {
    CategorySlugsAreDistinct(files);
    CategoriesAreWritten(uuid, s, CategorySlugs(files), MinRoles(files));
    ArticlesAreWritten(uuid, UpsertCategories(uuid, s, CategorySlugs(files), MinRoles(files)), files, now);
  }

  /**
   * By the sync's own levels, a category reaches a role exactly when one of its files does, in whatever order
   * they come.
   */
  lemma CategoryAudience(uuid: nat -> string, s: Store, files: seq<FileDoc>, now: int, category: string, user: string)
    requires category in CategorySlugs(files)
    ensures var after := Sync(uuid, s, files, now).store;
      category in after.categories
      && (InAudience(user, after.categories[category].minRole) <==> SomeFileInAudience(files, category, user))
  {
    SyncedCategoryRole(uuid, s, files, now, category);
    MinRoleIsMostPermissive(files, category);
  }

  /** The role of the category's first file that names none of the three privileged roles. */
  function FirstOpenRole(files: seq<FileDoc>, category: string): Option<string> {
    if files == [] then None
    else
      var earlier, f := FirstOpenRole(files[..|files| - 1], category), files[|files| - 1];
      if earlier == None && f.category == category && Role(f) !in {"admin", "staff", "sustaining"} then Some(Role(f))
      else earlier
  }

  lemma {:induction false} NoRoleNoOpenRole(files: seq<FileDoc>, category: string)
    requires category !in MinRoles(files)
    ensures FirstOpenRole(files, category) == None
  {
    if files == [] {
    } else {
      NoRoleNoOpenRole(files[..|files| - 1], category);
    }
  }

  /** A category with an open role takes the first one; without one its role is privileged and so known. */
  lemma {:induction false} DerivedRoleIsFirstOpen(files: seq<FileDoc>, category: string)
    requires category in MinRoles(files)
    ensures match FirstOpenRole(files, category)
      case Some(role) => MinRoles(files)[category] == role && RoleLevel(role) == 3
      case None => RoleLevel(MinRoles(files)[category]) < 3
  {
    var init := files[..|files| - 1];
    if category in MinRoles(init) {
      DerivedRoleIsFirstOpen(init, category);
    } else {
      NoRoleNoOpenRole(init, category);
    }
  }

  /** File `i` is the category's first that names none of the three privileged roles. */
  ghost predicate IsFirstOpenFile(files: seq<FileDoc>, category: string, i: nat) {
    && i < |files| && files[i].category == category
    && files[i].minRole !in {Some("admin"), Some("staff"), Some("sustaining")}
    && (forall j :: 0 <= j < i && files[j].category == category ==>
          files[j].minRole in {Some("admin"), Some("staff"), Some("sustaining")})
  }

  ghost predicate SomeFileNames(files: seq<FileDoc>, category: string, role: string) {
    exists f :: f in files && f.category == category && f.minRole == Some(role)
  }

  lemma PrivilegedRoles()
    ensures RoleLevel("admin") == 0 && RoleLevel("staff") == 1
    ensures RoleLevel("sustaining") == 2 && RoleLevel("member") == 3
    ensures "member" !in {"admin", "staff", "sustaining"}
  {
    assert |"member"| == 6 && |"admin"| == 5 && |"staff"| == 5 && |"sustaining"| == 10 && "admin"[0] != "staff"[0];
  }

  lemma {:induction false} NoOpenFileNoRole(files: seq<FileDoc>, category: string)
    requires forall i: nat :: !IsFirstOpenFile(files, category, i)
    ensures FirstOpenRole(files, category) == None
    ensures forall f :: f in files && f.category == category ==>
      f.minRole in {Some("admin"), Some("staff"), Some("sustaining")}
  {
    if files == [] {
    } else {
      var init, n := files[..|files| - 1], |files| - 1;
      forall j: nat ensures !IsFirstOpenFile(init, category, j) {
        if j < n && IsFirstOpenFile(init, category, j) {
          assert IsFirstOpenFile(files, category, j);
        }
      }
      NoOpenFileNoRole(init, category);
      assert !IsFirstOpenFile(files, category, n);
      assert files == init + [files[n]];
    }
  }

  lemma {:induction false} FirstOpenRoleIsOfFile(files: seq<FileDoc>, category: string, i: nat)
    requires IsFirstOpenFile(files, category, i)
    ensures FirstOpenRole(files, category) == Some(Role(files[i]))
  {
    PrivilegedRoles();
    var init := files[..|files| - 1];
    if i == |files| - 1 {
      forall j | 0 <= j < i ensures !IsFirstOpenFile(init, category, j) {
        assert init[j] == files[j];
      }
      NoOpenFileNoRole(init, category);
    } else {
      FirstOpenRoleIsOfFile(init, category, i);
    }
  }

  /** A category takes the role its first file outside the privileged ones names, `member` if it names none. */
  lemma CategoryRoleOfOpenFile(uuid: nat -> string, s: Store, files: seq<FileDoc>, now: int, category: string, i: nat)
    requires IsFirstOpenFile(files, category, i)
    ensures var after := Sync(uuid, s, files, now).store;
      category in after.categories
      && match files[i].minRole
         case None => after.categories[category].minRole == "member"
         case Some(role) => after.categories[category].minRole == role
  {
    CategorySlugsAreDistinct(files);
    assert files[i] in files;
    SyncedCategoryRole(uuid, s, files, now, category);
    FirstOpenRoleIsOfFile(files, category, i);
    DerivedRoleIsFirstOpen(files, category);
  }

  /** Without such a file it is the least privileged of the roles its files name. */
  lemma CategoryRoleOfPrivilegedFiles(uuid: nat -> string, s: Store, files: seq<FileDoc>, now: int, category: string)
    requires category in CategorySlugs(files) && forall i: nat :: !IsFirstOpenFile(files, category, i)
    ensures var after := Sync(uuid, s, files, now).store;
      category in after.categories
      && after.categories[category].minRole
         == if SomeFileNames(files, category, "sustaining") then "sustaining"
            else if SomeFileNames(files, category, "staff") then "staff"
            else "admin"
  {
    PrivilegedRoles();
    SyncedCategoryRole(uuid, s, files, now, category);
    MinRoleIsMostPermissive(files, category);
    NoOpenFileNoRole(files, category);
    DerivedRoleIsFirstOpen(files, category);
    var role := MinRoles(files)[category];
    var f :| f in files && f.category == category && Role(f) == role;
    assert f.minRole == Some(role);
  }

  /** The files give the category a role the help service knows. */
  predicate DerivesKnownRole(files: seq<FileDoc>, category: string) {
    FirstOpenRole(files, category) == None || FirstOpenRole(files, category) == Some("member")
  }

  ghost predicate NamesKnownRole(files: seq<FileDoc>, category: string) {
    exists f :: f in files && f.category == category && Role(f) in ROLES
  }

  ghost predicate NamesUnknownRole(files: seq<FileDoc>, category: string) {
    exists f :: f in files && f.category == category && Role(f) !in ROLES
  }

  /** The stored category admits exactly the roles that one of its files admits. */
  ghost predicate AdmitsAsFiles(after: Store, files: seq<FileDoc>, category: string) {
    category in after.categories
    && forall user :: Admits(user, after.categories[category].minRole) <==> SomeFileAdmits(files, category, user)
  }

  /**
   * By the help service's reading a synced category admits as its files do, exactly when its first
   * file with none of the roles admin, staff and sustaining names `member`, or there is no such
   * file, or no file of the category names a known role.
   */
  lemma CategoryAdmissionIff(uuid: nat -> string, s: Store, files: seq<FileDoc>, now: int, category: string)
    requires category in CategorySlugs(files)
    ensures AdmitsAsFiles(Sync(uuid, s, files, now).store, files, category)
      <==> DerivesKnownRole(files, category) || !NamesKnownRole(files, category)
  {
    SyncedCategoryRole(uuid, s, files, now, category);
    MinRoleIsMostPermissive(files, category);
    DerivedRoleIsFirstOpen(files, category);
    var minRole := MinRoles(files)[category];
    assert minRole in ROLES <==> DerivesKnownRole(files, category);
    if minRole !in ROLES && NamesKnownRole(files, category) {
      var f :| f in files && f.category == category && Role(f) in ROLES;
      assert Admits("admin", Role(f));
      assert SomeFileAdmits(files, category, "admin") && !Admits("admin", minRole);
    }
  }

  lemma UnknownFirst(f: FileDoc, rest: seq<FileDoc>, category: string)
    requires f.category == category && Role(f) !in ROLES
    ensures FirstOpenRole([f] + rest, category) == Some(Role(f))
  {
    if rest == [] {
      assert [f] + rest == [f] && [f][..0] == [];
    } else {
      UnknownFirst(f, rest[..|rest| - 1], category);
      assert ([f] + rest)[..|[f] + rest| - 1] == [f] + rest[..|rest| - 1];
    }
  }

  lemma SameFilesNameSameRoles(files: seq<FileDoc>, shuffled: seq<FileDoc>, category: string)
    requires multiset(shuffled) == multiset(files)
    ensures NamesKnownRole(shuffled, category) == NamesKnownRole(files, category)
    ensures NamesUnknownRole(shuffled, category) == NamesUnknownRole(files, category)
    ensures category in CategorySlugs(shuffled) <==> category in CategorySlugs(files)
  {
    forall f ensures f in files <==> f in shuffled {
      assert f in files <==> f in multiset(files);
      assert f in shuffled <==> f in multiset(shuffled);
    }
    CategorySlugsAreDistinct(files);
    CategorySlugsAreDistinct(shuffled);
  }

  lemma MoveToFront<T>(list: seq<T>, i: nat)
    requires i < |list|
    ensures multiset([list[i]] + (list[..i] + list[i + 1..])) == multiset(list)
  {
    assert list == list[..i] + [list[i]] + list[i + 1..];
  }

  /** With known and unknown roles mixed, some order of the files breaks the law. */
  lemma MixedRolesBreakSomeOrder(uuid: nat -> string, s: Store, files: seq<FileDoc>, now: int, category: string)
    returns (shuffled: seq<FileDoc>)
    requires category in CategorySlugs(files) && NamesKnownRole(files, category) && NamesUnknownRole(files, category)
    ensures multiset(shuffled) == multiset(files)
    ensures !AdmitsAsFiles(Sync(uuid, s, shuffled, now).store, shuffled, category)
  {
    var i :| 0 <= i < |files| && files[i].category == category && Role(files[i]) !in ROLES;
    var rest := files[..i] + files[i + 1..];
    shuffled := [files[i]] + rest;
    MoveToFront(files, i);
    UnknownFirst(files[i], rest, category);
    SameFilesNameSameRoles(files, shuffled, category);
    CategoryAdmissionIff(uuid, s, shuffled, now, category);
  }

  lemma UnmixedRolesAdmit(uuid: nat -> string, s: Store, files: seq<FileDoc>, now: int, category: string)
    requires category in CategorySlugs(files)
    requires !NamesKnownRole(files, category) || !NamesUnknownRole(files, category)
    ensures AdmitsAsFiles(Sync(uuid, s, files, now).store, files, category)
  {
    CategorySlugsAreDistinct(files);
    DerivedRoleIsFirstOpen(files, category);
    MinRoleIsMostPermissive(files, category);
    assert !NamesUnknownRole(files, category) ==> MinRoles(files)[category] in ROLES;
    CategoryAdmissionIff(uuid, s, files, now, category);
  }

  /** The law holds for every order of the files, exactly when the category does not mix known and unknown roles. */
  lemma AdmissionInEveryOrderIff(uuid: nat -> string, s: Store, files: seq<FileDoc>, now: int, category: string)
    requires category in CategorySlugs(files)
    ensures (forall shuffled :: multiset(shuffled) == multiset(files) ==>
               AdmitsAsFiles(Sync(uuid, s, shuffled, now).store, shuffled, category))
      <==> !(NamesKnownRole(files, category) && NamesUnknownRole(files, category))
  {
    if NamesKnownRole(files, category) && NamesUnknownRole(files, category) {
      var shuffled := MixedRolesBreakSomeOrder(uuid, s, files, now, category);
    } else {
      forall shuffled | multiset(shuffled) == multiset(files)
        ensures AdmitsAsFiles(Sync(uuid, s, shuffled, now).store, shuffled, category)
      {
        SameFilesNameSameRoles(files, shuffled, category);
        UnmixedRolesAdmit(uuid, s, shuffled, now, category);
      }
    }
  }

  /** With an unknown role among the files, the order they come in decides whether the category is shown. */
  lemma UnknownRoleMakesOrderMatter()
    ensures var known := FileDoc("t", "a", "c", None, Some("member"), None, "");
      var unknown := known.(slug := "b", minRole := Some("editor"));
      "c" in MinRoles([known, unknown]) && "c" in MinRoles([unknown, known])
      && Admits("member", MinRoles([known, unknown])["c"]) && !Admits("member", MinRoles([unknown, known])["c"])
  {
    var known := FileDoc("t", "a", "c", None, Some("member"), None, "");
    var unknown := known.(slug := "b", minRole := Some("editor"));
    assert [known, unknown][..1] == [known] && [unknown, known][..1] == [unknown];
    assert [known][..0] == [] && [unknown][..0] == [];
    assert |"editor"| == 6 && |"admin"| == 5 && |"staff"| == 5 && |"sustaining"| == 10 && "editor"[0] != "member"[0];
    assert "member" in ROLES && "editor" !in ROLES;
    assert MinRoles([]) == map[];
    assert MinRoles([known]) == map["c" := "member"] && MinRoles([unknown]) == map["c" := "editor"];
    assert MinRoles([known, unknown]) == MinRoles([known]) && MinRoles([unknown, known]) == MinRoles([unknown]);
  }

  // --- The same law on the stored rows -------------------------------------

  ghost predicate CategoryIdsDiffer(s: Store) {
    forall c, d :: c in s.categories && d in s.categories && s.categories[c].id == s.categories[d].id ==> c == d
  }

  /** The ids still to be drawn are new and pairwise different. */
  ghost predicate FreshCategoryIds(uuid: nat -> string, s: Store) {
    && (forall i, c :: s.drawn <= i && c in s.categories ==> s.categories[c].id != uuid(i))
    && (forall i, j :: s.drawn <= i < j ==> uuid(i) != uuid(j))
  }

  lemma {:induction false} CategoryIdsStayDifferent(uuid: nat -> string, s: Store, slugs: seq<string>,
                                                    roles: map<string, string>)
    requires CategoryIdsDiffer(s) && FreshCategoryIds(uuid, s)
    ensures var done := UpsertCategories(uuid, s, slugs, roles);
      CategoryIdsDiffer(done) && FreshCategoryIds(uuid, done)
  {
    if slugs == [] {
    } else {
      CategoryIdsStayDifferent(uuid, s, slugs[..|slugs| - 1], roles);
    }
  }

  predicate IsFiledUnder(s: Store, slug: string, category: string)
    requires category in s.categories
  {
    slug in s.articles && s.articles[slug].categoryId == s.categories[category].id
  }

  /** The article is published and the reader's role may open it. */
  predicate IsOpenTo(s: Store, slug: string, user: string) {
    slug in s.articles && s.articles[slug].published && Admits(user, s.articles[slug].minRole)
  }

  ghost predicate HoldsOpenStaticArticle(s: Store, category: string, user: string)
    requires category in s.categories
  {
    exists slug :: IsStatic(s.articles, slug) && IsFiledUnder(s, slug, category) && IsOpenTo(s, slug, user)
  }

  lemma {:induction false} LastFileIsAFile(files: seq<FileDoc>, slug: string)
    requires slug in Slugs(files)
    ensures LastFile(files, slug) in files && LastFile(files, slug).slug == slug
  {
    if files[|files| - 1].slug != slug {
      LastFileIsAFile(files[..|files| - 1], slug);
    }
  }

  lemma SyncKeepsCategoryIdsDifferent(uuid: nat -> string, s: Store, files: seq<FileDoc>, now: int)
    requires CategoryIdsDiffer(s) && FreshCategoryIds(uuid, s)
    ensures CategoryIdsDiffer(Sync(uuid, s, files, now).store)
    ensures forall f :: f in files ==> f.category in Sync(uuid, s, files, now).store.categories
  {
    CategorySlugsAreDistinct(files);
    CategoriesAreWritten(uuid, s, CategorySlugs(files), MinRoles(files));
    CategoryIdsStayDifferent(uuid, s, CategorySlugs(files), MinRoles(files));
    ArticlesAreWritten(uuid, UpsertCategories(uuid, s, CategorySlugs(files), MinRoles(files)), files, now);
  }

  /** Each file slug has a static row with its last file's role, filed under that file's category. */
  lemma FileHasRow(uuid: nat -> string, s: Store, files: seq<FileDoc>, now: int, slug: string)
    requires files != [] && NoSlugTaken(s, files) && slug in Slugs(files)
    requires CategoryIdsDiffer(s) && FreshCategoryIds(uuid, s)
    ensures var after, f := Sync(uuid, s, files, now).store, LastFile(files, slug);
      && IsStatic(after.articles, slug) && after.articles[slug].minRole == Role(f)
      && (forall c :: c in after.categories ==>
        (after.articles[slug].categoryId == after.categories[c].id <==> f.category == c))
  {
    var after := Sync(uuid, s, files, now).store;
    SyncMirrorsFiles(uuid, s, files, now);
    assert MirrorsFile(s, files, now, after, slug);
    LastFileIsAFile(files, slug);
    SyncKeepsCategoryIdsDifferent(uuid, s, files, now);
  }

  /** A slug whose last file is in the category, and whose row was published before the sync. */
  predicate IsPublishedFile(before: Store, files: seq<FileDoc>, slug: string, category: string) {
    slug in Slugs(files) && LastFile(files, slug).category == category
    && IsStatic(before.articles, slug) && before.articles[slug].published
  }

  /** The published static rows of a category are those of its published files; what is new stays a draft. */
  lemma PublishedRowIsPublishedFile(uuid: nat -> string, s: Store, files: seq<FileDoc>, now: int,
                                    category: string, slug: string)
    requires files != [] && NoSlugTaken(s, files) && CategoryIdsDiffer(s) && FreshCategoryIds(uuid, s)
    requires category in Sync(uuid, s, files, now).store.categories
    ensures var after := Sync(uuid, s, files, now).store;
      && (IsStatic(after.articles, slug) && IsFiledUnder(after, slug, category) && after.articles[slug].published
          <==> IsPublishedFile(s, files, slug, category))
      && (IsPublishedFile(s, files, slug, category) ==> after.articles[slug].minRole == Role(LastFile(files, slug)))
  {
    var after := Sync(uuid, s, files, now).store;
    SyncMirrorsFiles(uuid, s, files, now);
    if slug in Slugs(files) {
      FileHasRow(uuid, s, files, now, slug);
      assert MirrorsFile(s, files, now, after, slug) && EditorRowKept(s, after, slug);
    } else {
      assert !IsStatic(after.articles, slug);
    }
  }

  /**
   * After a sync a category holds a static article open to a role exactly when the last file of some
   * slug is in the category and admits the role, and the slug's row was published before.
   */
  lemma OpenRowsArePublishedFiles(uuid: nat -> string, s: Store, files: seq<FileDoc>, now: int,
                                  category: string, user: string)
    requires files != [] && NoSlugTaken(s, files) && category in CategorySlugs(files)
    requires CategoryIdsDiffer(s) && FreshCategoryIds(uuid, s)
    ensures var after := Sync(uuid, s, files, now).store;
      && category in after.categories
      && (HoldsOpenStaticArticle(after, category, user)
          <==> exists slug :: IsPublishedFile(s, files, slug, category) && Admits(user, Role(LastFile(files, slug))))
  {
    SyncedCategoryRole(uuid, s, files, now, category);
    forall slug {
      PublishedRowIsPublishedFile(uuid, s, files, now, category, slug);
    }
  }

  // --- What a reader is listed ---------------------------------------------

  ghost predicate HoldsOpenArticle(s: Store, category: string, user: string)
    requires category in s.categories
  {
    exists slug :: IsFiledUnder(s, slug, category) && IsOpenTo(s, slug, user)
  }

  /** `listNonEmptyCategories`: the category's own role and an open article in it. */
  ghost predicate IsListedTo(s: Store, category: string, user: string)
    requires category in s.categories
  {
    Admits(user, s.categories[category].minRole) && HoldsOpenArticle(s, category, user)
  }

  /** Readers are listed the category exactly when it holds something they can open. */
  ghost predicate ListsWhatIsOpen(s: Store, category: string)
    requires category in s.categories
  {
    forall user :: IsListedTo(s, category, user) <==> HoldsOpenArticle(s, category, user)
  }

  /** The article, if published under a known role, is no more permissive than its category. */
  predicate IsWithinCategory(s: Store, slug: string, category: string)
    requires category in s.categories
  {
    IsFiledUnder(s, slug, category) && s.articles[slug].published && s.articles[slug].minRole in ROLES ==>
      s.categories[category].minRole in ROLES
      && RoleLevel(s.articles[slug].minRole) <= RoleLevel(s.categories[category].minRole)
  }

  /** The listing hides nothing open, exactly when no published article is more permissive than its category. */
  lemma ListsWhatIsOpenIff(s: Store, category: string)
    requires category in s.categories
    ensures ListsWhatIsOpen(s, category) <==> forall slug :: IsWithinCategory(s, slug, category)
  {
    if ListsWhatIsOpen(s, category) {
      forall slug ensures IsWithinCategory(s, slug, category) {
        if IsFiledUnder(s, slug, category) && s.articles[slug].published && s.articles[slug].minRole in ROLES {
          var user := s.articles[slug].minRole;
          assert IsOpenTo(s, slug, user);
          assert IsListedTo(s, category, user);
        }
      }
    }
    if forall slug :: IsWithinCategory(s, slug, category) {
      forall user | HoldsOpenArticle(s, category, user) ensures IsListedTo(s, category, user) {
        var slug :| IsFiledUnder(s, slug, category) && IsOpenTo(s, slug, user);
        assert IsWithinCategory(s, slug, category);
      }
    }
  }

  /** A published file that names a known role, in a category whose files derive none, would be hidden. */
  predicate IsHiddenFile(before: Store, files: seq<FileDoc>, slug: string, category: string) {
    && IsPublishedFile(before, files, slug, category)
    && Role(LastFile(files, slug)) in ROLES
    && !DerivesKnownRole(files, category)
  }

  /** Every article is filed under a stored category, as its foreign key demands. */
  ghost predicate ArticlesAreFiled(s: Store) {
    forall slug :: slug in s.articles ==>
      exists c :: c in s.categories && s.categories[c].id == s.articles[slug].categoryId
  }

  /**
   * A published editor article of the category, of a known role, would be hidden where the files derive
   * no known role or none of them is as permissive as the article.
   */
  ghost predicate IsHiddenEditorArticle(before: Store, files: seq<FileDoc>, slug: string, category: string) {
    && slug in before.articles && before.articles[slug].source != STATIC
    && category in before.categories && IsFiledUnder(before, slug, category)
    && before.articles[slug].published && before.articles[slug].minRole in ROLES
    && !(DerivesKnownRole(files, category) && SomeFileInAudience(files, category, before.articles[slug].minRole))
  }

  /** A synced static article is within its category unless its file is hidden. */
  lemma StaticArticleWithinIff(uuid: nat -> string, s: Store, files: seq<FileDoc>, now: int, category: string,
                               slug: string)
    requires files != [] && NoSlugTaken(s, files) && category in CategorySlugs(files)
    requires CategoryIdsDiffer(s) && FreshCategoryIds(uuid, s)
    requires IsStatic(Sync(uuid, s, files, now).store.articles, slug)
    ensures category in Sync(uuid, s, files, now).store.categories
    ensures IsWithinCategory(Sync(uuid, s, files, now).store, slug, category)
      <==> !IsHiddenFile(s, files, slug, category)
  {
    SyncedCategoryRole(uuid, s, files, now, category);
    MinRoleIsMostPermissive(files, category);
    DerivedRoleIsFirstOpen(files, category);
    PublishedRowIsPublishedFile(uuid, s, files, now, category, slug);
    if IsPublishedFile(s, files, slug, category) {
      LastFileIsAFile(files, slug);
    }
  }

  lemma SyncKeepsCategoryId(uuid: nat -> string, s: Store, files: seq<FileDoc>, now: int, c: string)
    requires c in s.categories
    ensures var after := Sync(uuid, s, files, now).store;
      c in after.categories && after.categories[c].id == s.categories[c].id
  {
    CategorySlugsAreDistinct(files);
    CategoriesAreWritten(uuid, s, CategorySlugs(files), MinRoles(files));
    ArticlesAreWritten(uuid, UpsertCategories(uuid, s, CategorySlugs(files), MinRoles(files)), files, now);
  }

  /** A sync files no stored article elsewhere, nor under a category it makes. */
  lemma SyncKeepsFiling(uuid: nat -> string, s: Store, files: seq<FileDoc>, now: int, category: string, id: string)
    requires CategoryIdsDiffer(s) && FreshCategoryIds(uuid, s) && category in CategorySlugs(files)
    requires exists c :: c in s.categories && s.categories[c].id == id
    ensures var after := Sync(uuid, s, files, now).store;
      category in after.categories
      && (after.categories[category].id == id <==> category in s.categories && s.categories[category].id == id)
  {
    var c :| c in s.categories && s.categories[c].id == id;
    SyncKeepsCategoryId(uuid, s, files, now, c);
    if category in s.categories {
      SyncKeepsCategoryId(uuid, s, files, now, category);
    }
    SyncKeepsCategoryIdsDifferent(uuid, s, files, now);
    SyncedCategoryRole(uuid, s, files, now, category);
  }

  /** The derived role is known and no less permissive than `role`, exactly when the files say so. */
  lemma DerivedRoleReachesIff(files: seq<FileDoc>, category: string, role: string)
    requires category in MinRoles(files)
    ensures MinRoles(files)[category] in ROLES && InAudience(role, MinRoles(files)[category])
      <==> DerivesKnownRole(files, category) && SomeFileInAudience(files, category, role)
  {
    MinRoleIsMostPermissive(files, category);
    DerivedRoleIsFirstOpen(files, category);
  }

  /** An editor's article is within a synced category unless the category's files hide it. */
  lemma EditorArticleWithinIff(uuid: nat -> string, s: Store, files: seq<FileDoc>, now: int, category: string,
                               slug: string)
    requires files != [] && NoSlugTaken(s, files) && category in CategorySlugs(files)
    requires CategoryIdsDiffer(s) && FreshCategoryIds(uuid, s) && ArticlesAreFiled(s)
    requires slug in s.articles && s.articles[slug].source != STATIC
    ensures category in Sync(uuid, s, files, now).store.categories
    ensures IsWithinCategory(Sync(uuid, s, files, now).store, slug, category)
      <==> !IsHiddenEditorArticle(s, files, slug, category)
  {
    SyncedCategoryRole(uuid, s, files, now, category);
    DerivedRoleReachesIff(files, category, s.articles[slug].minRole);
    SyncMirrorsFiles(uuid, s, files, now);
    assert EditorRowKept(s, Sync(uuid, s, files, now).store, slug);
    SyncKeepsFiling(uuid, s, files, now, category, s.articles[slug].categoryId);
  }

  /**
   * After a sync, readers are listed a category exactly when it holds something they can open, iff its
   * files hide neither one of themselves nor an editor's article.
   */
  lemma SyncedCategoryListsWhatIsOpenIff(uuid: nat -> string, s: Store, files: seq<FileDoc>, now: int, category: string)
    requires files != [] && NoSlugTaken(s, files) && category in CategorySlugs(files)
    requires CategoryIdsDiffer(s) && FreshCategoryIds(uuid, s) && ArticlesAreFiled(s)
    ensures var after := Sync(uuid, s, files, now).store;
      && category in after.categories
      && (ListsWhatIsOpen(after, category)
          <==> forall slug ::
                 !IsHiddenEditorArticle(s, files, slug, category) && !IsHiddenFile(s, files, slug, category))
  {
    var after := Sync(uuid, s, files, now).store;
    SyncedCategoryRole(uuid, s, files, now, category);
    ListsWhatIsOpenIff(after, category);
    SyncMirrorsFiles(uuid, s, files, now);
    forall slug
      ensures IsWithinCategory(after, slug, category)
        <==> !IsHiddenEditorArticle(s, files, slug, category) && !IsHiddenFile(s, files, slug, category)
    {
      assert EditorRowKept(s, after, slug);
      assert IsStatic(after.articles, slug) <==> slug in Slugs(files);
      if IsStatic(after.articles, slug) {
        StaticArticleWithinIff(uuid, s, files, now, category, slug);
      } else if slug in s.articles && s.articles[slug].source != STATIC {
        EditorArticleWithinIff(uuid, s, files, now, category, slug);
      }
    }
  }

  /** A members' article in a category whose only file is for staff: members can open it but do not see its category. */
  lemma StaffFileHidesMembersArticle(uuid: nat -> string, now: int)
    ensures var a := Article("1", "c1", "T", None, "text", "dynamic", "member", true, 0, 0, 0);
      var s := Store(map["c" := Category("c1", "C", "member", 0)], map["a" := a], 0);
      var after := Sync(uuid, s, [FileDoc("T", "b", "c", None, Some("staff"), None, "")], now).store;
      "c" in after.categories && HoldsOpenArticle(after, "c", "member") && !IsListedTo(after, "c", "member")
  {
    var a := Article("1", "c1", "T", None, "text", "dynamic", "member", true, 0, 0, 0);
    var s := Store(map["c" := Category("c1", "C", "member", 0)], map["a" := a], 0);
    var f := FileDoc("T", "b", "c", None, Some("staff"), None, "");
    assert |"dynamic"| != |STATIC| && "a"[0] != "b"[0];
    assert |"member"| == 6 && |"admin"| == 5 && |"staff"| == 5 && |"sustaining"| == 10;
    assert NoSlugTaken(s, [f]);
    CategorySlugsAreDistinct([f]);
    assert f in [f] && "c" in CategorySlugs([f]);
    SyncedCategoryRole(uuid, s, [f], now, "c");
    MinRoleIsMostPermissive([f], "c");
    SyncMirrorsFiles(uuid, s, [f], now);
    var after := Sync(uuid, s, [f], now).store;
    assert EditorRowKept(s, after, "a");
    SyncKeepsCategoryId(uuid, s, [f], now, "c");
    assert IsFiledUnder(after, "a", "c") && IsOpenTo(after, "a", "member");
  }

  /** Once an insert has thrown, the later files change nothing. */
  lemma {:induction false} ThrowIsFinal(uuid: nat -> string, s: Store, files: seq<FileDoc>, i: nat, now: int)
    requires i <= |files| && UpsertArticles(uuid, s, files[..i], now).Threw?
    ensures UpsertArticles(uuid, s, files, now) == UpsertArticles(uuid, s, files[..i], now)
  {
    if i == |files| {
      assert files[..i] == files;
    } else {
      assert files[..|files| - 1][..i] == files[..i];
      ThrowIsFinal(uuid, s, files[..|files| - 1], i, now);
    }
  }

  // --- The script as it runs -----------------------------------------------

  class HelpTables {
    var categories: map<string, Category>
    var articles: map<string, Article>
    var drawn: nat

    ghost function Contents(): Store
      reads this
    {
      Store(categories, articles, drawn)
    }

    constructor (s: Store)
      ensures Contents() == s
    {
      categories, articles, drawn := s.categories, s.articles, s.drawn;
    }

    /** One sync; `completed` is false when an insert threw. */
    method SyncFiles(uuid: nat -> string, files: seq<FileDoc>, now: int) returns (completed: bool)
      modifies this
      ensures (if completed then Synced(Contents()) else Threw(Contents())) == Sync(uuid, old(Contents()), files, now)
      ensures completed <==> NoSlugTaken(old(Contents()), files)
    {
      SyncCompletesIff(uuid, Contents(), files, now);
      CategorySlugsAreDistinct(files);
      var categorySlugs, categoryMinRole := CollectCategories(files);
      UpsertAllCategories(uuid, categorySlugs, categoryMinRole);
      var ok := UpsertAllArticles(uuid, files, now);
      if !ok {
        return false;
      }
      if files != [] {
        var slugs := Slugs(files);
        articles := map slug | slug in articles && (slug in slugs || articles[slug].source != STATIC) :: articles[slug];
      }
      return true;
    }

    static method CollectCategories(files: seq<FileDoc>) returns (slugs: seq<string>, minRole: map<string, string>)
      ensures slugs == CategorySlugs(files) && minRole == MinRoles(files)
    {
      slugs, minRole := [], map[];
      for i := 0 to |files|
        invariant slugs == CategorySlugs(files[..i]) && minRole == MinRoles(files[..i])
      {
        assert files[..i + 1][..i] == files[..i];
        var f := files[i];
        if f.category !in slugs {
          slugs := slugs + [f.category];
        }
        var role := f.minRole.GetOr("member");
        if f.category !in minRole || RoleLevel(role) > RoleLevel(minRole[f.category]) {
          minRole := minRole[f.category := role];
        }
      }
      assert files[..|files|] == files;
    }

    method UpsertAllCategories(uuid: nat -> string, slugs: seq<string>, roles: map<string, string>)
      modifies this
      ensures Contents() == UpsertCategories(uuid, old(Contents()), slugs, roles)
    {
      for i := 0 to |slugs|
        invariant Contents() == UpsertCategories(uuid, old(Contents()), slugs[..i], roles)
      {
        assert slugs[..i + 1][..i] == slugs[..i];
        var slug := slugs[i];
        var minRole := if slug in roles then roles[slug] else "member";
        if slug in categories {
          categories := categories[slug := categories[slug].(minRole := minRole)];
        } else {
          categories := categories[slug := Category(uuid(drawn), CategoryName(slug), minRole, i)];
          drawn := drawn + 1;
        }
      }
      assert slugs[..|slugs|] == slugs;
    }

    method UpsertAllArticles(uuid: nat -> string, files: seq<FileDoc>, now: int) returns (ok: bool)
      modifies this
      ensures (if ok then Synced(Contents()) else Threw(Contents()))
        == UpsertArticles(uuid, old(Contents()), files, now)
    {
      ghost var start := Contents();
      for i := 0 to |files|
        invariant UpsertArticles(uuid, start, files[..i], now) == Synced(Contents())
      {
        assert files[..i + 1][..i] == files[..i];
        var f := files[i];
        if f.slug in articles && articles[f.slug].source == STATIC {
          var categoryId := CategoryId(Store(categories, articles, drawn), f.category);
          var a := articles[f.slug].(title := f.title, categoryId := categoryId,
                                     summary := f.summary, content := f.body, minRole := Role(f),
                                     sortOrder := f.sortOrder.GetOr(0), updatedAt := now);
          articles := articles[f.slug := a];
        } else if f.slug in articles {
          ThrowIsFinal(uuid, start, files, i + 1, now);
          return false;
        } else {
          var a := Article(uuid(drawn), CategoryId(Store(categories, articles, drawn), f.category), f.title, f.summary,
                           f.body, STATIC, Role(f), false, f.sortOrder.GetOr(0), now, now);
          articles := articles[f.slug := a];
          drawn := drawn + 1;
        }
      }
      assert files[..|files|] == files;
      return true;
    }
  }
}
