/**
  Progress persistence: on every page load the script reads the key of the
  last page visited, offers a "resume" banner when it names another page,
  and records the current page's key.
 */
module Progress {
  import opened Wrappers
  import opened LocalStore

  const LastPageKey := "researchAppLastPage"
  const UnknownLabel := "Unknown"

  /** `PAGE_URLS`: the address of each page key. */
  function PageUrl(key: string): (url: Option<string>)
    ensures url.Some? <==> key in {"signup", "preDirections", "video", "survey", "hub"}
    ensures url.Some? ==> |url.value| > 5 && url.value[|url.value| - 5..] == ".html"
  {
    if key == "signup" then Some("index.html")
    else if key == "preDirections" then Some("pre-directions.html")
    else if key == "video" then Some("video.html")
    else if key == "survey" then Some("survey.html")
    else if key == "hub" then Some("learning-hub.html")
    else None
  }

  /** The banner's page name: the label map's entry, or "Unknown" when the
      key has none. The label map and the address map know the same keys. */
  function PageLabel(key: string): (caption: string)
    ensures caption == UnknownLabel <==> PageUrl(key).None?
  {
    if key == "signup" then "Sign Up"
    else if key == "preDirections" then "Pre-Directions"
    else if key == "video" then "Video Explanation"
    else if key == "survey" then "Short Survey"
    else if key == "hub" then "Learning Hub"
    else UnknownLabel
  }

  /** Whether a page load offers to resume: the stored key is present and
      non-empty, the current key too, and they differ. */
  function ShowsResume(last: Option<string>, current: Option<string>): (show: bool)
    ensures show ==> Truthy(last) && Truthy(current) && last != current
    ensures Truthy(last) && Truthy(current) && !show ==> last == current
  {
    Truthy(last) && Truthy(current) && last.value != current.value
  }

  /** The resume banner, naming the page it offers to return to. */
  datatype Banner = Banner(lastPageKey: string) {
    function Caption(): string {
      PageLabel(lastPageKey)
    }
  }

  /** The banner after a page load: one is added only when the load offers to
      resume and none is present yet; an existing banner is kept as it is. */
  function BannerAfter(banner: Option<Banner>, last: Option<string>, current: Option<string>): (b: Option<Banner>)
    ensures banner.Some? ==> b == banner
    ensures b.Some? && banner.None? ==> ShowsResume(last, current) && b == Some(Banner(last.value))
    ensures banner.None? && ShowsResume(last, current) ==> b.Some?
  {
    if ShowsResume(last, current) && banner.None? then Some(Banner(last.value)) else banner
  }

  /** The store after a page load: the last-page key holds the current page
      when there is one, and no other key changes. */
  function StoreAfter(items: map<string, string>, current: Option<string>): (m: map<string, string>)
    ensures Lookup(m, LastPageKey) == if Truthy(current) then current else Lookup(items, LastPageKey)
    ensures forall k | k != LastPageKey :: Lookup(m, k) == Lookup(items, k)
  {
    if Truthy(current) then items[LastPageKey := current.value] else items
  }

  /** A page whose body may hold the resume banner. */
  class Page {
    var banner: Option<Banner>

    constructor ()
      ensures banner == None
    {
      banner := None;
    }

    /** Adds the banner unless one is already present. */
    method ShowResumeBanner(lastPageKey: string)
      modifies this
      ensures banner == if old(banner).None? then Some(Banner(lastPageKey)) else old(banner)
    {
      if banner.Some? {
        return;
      }
      banner := Some(Banner(lastPageKey));
    }

    /** The page-load step: read the last page, maybe show the banner, then
      record the current page. */
    method InitProgressPersistence(store: Store, currentPage: Option<string>)
      modifies this, store
      ensures banner == BannerAfter(old(banner), Lookup(old(store.items), LastPageKey), currentPage)
      ensures store.items == StoreAfter(old(store.items), currentPage)
    {
      var lastPage := store.GetItem(LastPageKey);
      if Truthy(lastPage) && Truthy(currentPage) && lastPage.value != currentPage.value {
        ShowResumeBanner(lastPage.value);
      }
      if Truthy(currentPage) {
        store.SetItem(LastPageKey, currentPage.value);
      }
    }

    /** The banner's Resume button: the address of the remembered page, if it
        has one; no banner, no button, no navigation. */
    method Resume() returns (target: Option<string>)
      ensures banner.None? ==> target == None
      ensures banner.Some? ==> target == PageUrl(banner.value.lastPageKey)
      ensures target.Some? ==> banner.Some? && banner.value.Caption() != UnknownLabel
    {
      if banner.None? {
        return None;
      }
      target := PageUrl(banner.value.lastPageKey);
    }

    /** The banner's Dismiss button removes it. */
    method Dismiss()
      modifies this
      ensures banner == None
    {
      banner := None;
    }
  }

  /** Once a banner is present, later page-load steps leave it as it is. */
  lemma BannerNeverDuplicated(banner: Option<Banner>, last: Option<string>, current: Option<string>,
                              last': Option<string>, current': Option<string>)
    ensures var once := BannerAfter(banner, last, current);
            once.Some? ==> BannerAfter(once, last', current') == once
  {
  }

  /** Coming from the survey to the hub offers to resume the "Short Survey";
      no stored page, or the same page again, offers nothing. */
  lemma ResumeExamples()
    ensures ShowsResume(Some("survey"), Some("hub"))
    ensures BannerAfter(None, Some("survey"), Some("hub")) == Some(Banner("survey"))
    ensures Banner("survey").Caption() == "Short Survey"
    ensures !ShowsResume(None, Some("hub"))
    ensures !ShowsResume(Some("hub"), Some("hub"))
  {
  }

  /** Two page loads in a row: after visiting `first`, loading a different
      page `second` offers to resume `first`, and reloading `first` offers nothing. */
  lemma ConsecutiveLoads(items: map<string, string>, first: string, second: string)
    requires first != [] && second != [] && first != second
    ensures var after := StoreAfter(items, Some(first));
            && ShowsResume(Lookup(after, LastPageKey), Some(second))
            && BannerAfter(None, Lookup(after, LastPageKey), Some(second)) == Some(Banner(first))
            && !ShowsResume(Lookup(after, LastPageKey), Some(first))
  {
  }
}
