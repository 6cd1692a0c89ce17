/** Merging legacy links and embeds into one list (`buildLinks` in scripts/migrate-from-postgres.ts). */
module ProfileLinks {
  import opened Wrappers

  datatype LegacyLink = LegacyLink(caption: Option<string>, name: Option<string>, url: Option<string>)

  datatype Link = Link(caption: string, url: string, embed: bool)

  function ToLink(l: LegacyLink): Link {
    Link(l.caption.Or(l.name).GetOr(""), l.url.GetOr(""), false)
  }

  /** A legacy link keeps its URL, and is shown under its caption, else its name, else nothing. */
  ghost predicate ShowsLegacy(l: LegacyLink, shown: Link) {
    && !shown.embed
    && shown.url == (if l.url.Some? then l.url.value else "")
    && (l.caption.Some? ==> shown.caption == l.caption.value)
    && (l.caption == None && l.name.Some? ==> shown.caption == l.name.value)
    && (l.caption == None && l.name == None ==> shown.caption == "")
  }

  /** The legacy links, none when the column is no array. */
  function LegacyLinks(raw: Option<seq<LegacyLink>>): seq<Link> {
    if raw == None then [] else seq(|raw.value|, i requires 0 <= i < |raw.value| => ToLink(raw.value[i]))
  }

  function Urls(links: seq<Link>): set<string> {
    set l | l in links :: l.url
  }

  /** The canonical URLs of the non-blank embeds, in order. */
  function EmbedUrls(embeds: seq<Option<string>>, canonical: string -> string): seq<string> {
    if embeds == [] then []
    else
      var raw := embeds[|embeds| - 1].GetOr("");
      EmbedUrls(embeds[..|embeds| - 1], canonical) + if raw == "" then [] else [canonical(raw)]
  }

  /** The URLs not taken already, each at its first place. */
  function NewUrls(urls: seq<string>, taken: set<string>): seq<string> {
    if urls == [] then []
    else
      var earlier, last := NewUrls(urls[..|urls| - 1], taken), urls[|urls| - 1];
      if last in taken || last in earlier then earlier else earlier + [last]
  }

  /** Nothing taken, nothing twice, nothing missing, nothing else. */
  lemma {:induction false} NewUrlsAreFirstUses(urls: seq<string>, taken: set<string>)
    ensures var kept := NewUrls(urls, taken);
      && (forall u :: u in kept <==> u in urls && u !in taken)
      && (forall i, j :: 0 <= i < j < |kept| ==> kept[i] != kept[j])
  {
    if urls == [] {
    } else {
      NewUrlsAreFirstUses(urls[..|urls| - 1], taken);
      assert urls == urls[..|urls| - 1] + [urls[|urls| - 1]];
    }
  }

  /** New URLs keep the order in which they first appear: an earlier list of embeds gives a prefix. */
  lemma {:induction false} NewUrlsKeepOrder(urls: seq<string>, more: seq<string>, taken: set<string>)
    ensures NewUrls(urls, taken) <= NewUrls(urls + more, taken)
  {
    if more == [] {
      assert urls + more == urls;
    } else {
      NewUrlsKeepOrder(urls, more[..|more| - 1], taken);
      assert (urls + more)[..|urls + more| - 1] == urls + more[..|more| - 1];
    }
  }

  function EmbedLinks(urls: seq<string>, caption: string -> string): seq<Link> {
    seq(|urls|, i requires 0 <= i < |urls| => Link(caption(urls[i]), urls[i], true))
  }

  lemma EmbedUrlsCover(embeds: seq<Option<string>>, canonical: string -> string)
    ensures forall e :: e in embeds && e.GetOr("") != "" ==> canonical(e.GetOr("")) in EmbedUrls(embeds, canonical)
    ensures EmbedUrls(embeds, canonical) == [] <==> forall e :: e in embeds ==> e.GetOr("") == ""
  {
    if embeds == [] {
    } else {
      EmbedUrlsCover(embeds[..|embeds| - 1], canonical);
      assert embeds == embeds[..|embeds| - 1] + [embeds[|embeds| - 1]];
    }
  }

  /** The merged list: the legacy links, then one embed link for each new URL. */
  function Merged(legacy: seq<Link>, urls: seq<string>, caption: string -> string): seq<Link> {
    legacy + EmbedLinks(NewUrls(urls, Urls(legacy)), caption)
  }

  /** Every embed URL occurs in the merged list, which is empty only when there is nothing to list. */
  lemma MergedCovers(legacy: seq<Link>, urls: seq<string>, caption: string -> string)
    ensures forall u :: u in urls ==> u in Urls(Merged(legacy, urls, caption))
    ensures Merged(legacy, urls, caption) == [] <==> legacy == [] && urls == []
  {
    NewUrlsAreFirstUses(urls, Urls(legacy));
    var links, added := Merged(legacy, urls, caption), NewUrls(urls, Urls(legacy));
    forall u | u in urls ensures u in Urls(links) {
      if u in Urls(legacy) {
        var l :| l in legacy && l.url == u;
        assert l in links;
      } else {
        var i :| 0 <= i < |added| && added[i] == u;
        assert links[|legacy| + i].url == u;
      }
    }
    assert urls != [] ==> urls[0] in urls;
  }

  /** The legacy links come first, each as it was, and behind them only embeds. */
  lemma MergedShows(rawLinks: Option<seq<LegacyLink>>, urls: seq<string>, caption: string -> string)
    ensures var links, n := Merged(LegacyLinks(rawLinks), urls, caption), |rawLinks.GetOr([])|;
      && n <= |links|
      && (forall i :: 0 <= i < n ==> ShowsLegacy(rawLinks.value[i], links[i]))
      && (forall i :: n <= i < |links| ==> links[i].embed && links[i].caption == caption(links[i].url))
  {
  }

  lemma MergedThen(legacy: seq<Link>, urls: seq<string>, url: string, caption: string -> string)
    ensures NewUrls(urls + [url], Urls(legacy)) == NewUrls(urls, Urls(legacy))
      + if url in Urls(legacy) || url in NewUrls(urls, Urls(legacy)) then [] else [url]
    ensures Merged(legacy, urls + [url], caption) == Merged(legacy, urls, caption)
      + if url in Urls(legacy) || url in NewUrls(urls, Urls(legacy)) then [] else [Link(caption(url), url, true)]
  {
    assert (urls + [url])[..|urls + [url]| - 1] == urls;
  }

  lemma EmbedUrlsThen(embeds: seq<Option<string>>, i: nat, canonical: string -> string)
    requires i < |embeds|
    ensures EmbedUrls(embeds[..i + 1], canonical) == EmbedUrls(embeds[..i], canonical)
      + if embeds[i].GetOr("") == "" then [] else [canonical(embeds[i].GetOr(""))]
  {
    assert embeds[..i + 1][..i] == embeds[..i];
  }

  /** `caption` stands for the platform or host name shown for a URL. */
  method BuildLinks(rawLinks: Option<seq<LegacyLink>>, rawEmbeds: Option<seq<Option<string>>>,
                    canonical: string -> string, caption: string -> string) returns (result: Option<seq<Link>>)
    ensures result == None
      <==> LegacyLinks(rawLinks) == [] && forall e :: e in rawEmbeds.GetOr([]) ==> e.GetOr("") == ""
    ensures result.Some? ==>
      result.value == Merged(LegacyLinks(rawLinks), EmbedUrls(rawEmbeds.GetOr([]), canonical), caption)
    ensures result.Some? ==>
      var n := |rawLinks.GetOr([])|;
      && n <= |result.value|
      && (forall i :: 0 <= i < n ==> ShowsLegacy(rawLinks.value[i], result.value[i]))
      && (forall i :: n <= i < |result.value| ==>
            result.value[i].embed && result.value[i].caption == caption(result.value[i].url))
    ensures result.Some? ==> forall e :: e in rawEmbeds.GetOr([]) && e.GetOr("") != "" ==>
      canonical(e.GetOr("")) in Urls(result.value)
  {
    var links := LegacyLinks(rawLinks);
    ghost var legacy := links;
    var seen := Urls(links);
    var embeds := rawEmbeds.GetOr([]);
    for i := 0 to |embeds|
      invariant links == Merged(legacy, EmbedUrls(embeds[..i], canonical), caption)
      invariant forall u :: u in seen <==>
        u in Urls(legacy) || u in NewUrls(EmbedUrls(embeds[..i], canonical), Urls(legacy))
    {
      EmbedUrlsThen(embeds, i, canonical);
      ghost var before := EmbedUrls(embeds[..i], canonical);
      var raw := embeds[i].GetOr("");
      if raw == "" {
        assert before + [] == before;
        continue;
      }
      var url := canonical(raw);
      MergedThen(legacy, before, url, caption);
      if url in seen {
        continue;
      }
      seen := seen + {url};
      links := links + [Link(caption(url), url, true)];
    }
    assert embeds[..|embeds|] == embeds;
    MergedShows(rawLinks, EmbedUrls(embeds, canonical), caption);
    EmbedUrlsCover(embeds, canonical);
    MergedCovers(legacy, EmbedUrls(embeds, canonical), caption);
    result := if |links| > 0 then Some(links) else None;
  }
}
