/**
 * The search index of CMS pages (class `TitleIndex`): which title records are
 * indexed, which placeholder slots of a page are searched, and which text
 * fragments make up the search text of one page in one language.
 *
 * The content store, the plugin text extractor and the final join of the
 * fragments are collaborators whose code is not part of this model; they
 * enter as parameters (records held in memory and uninterpreted functions).
 */
module TitleIndex {
  import opened Wrappers
  import opened Filtering

  /** A named content slot of a page ("content", "sidebar", ...). */
  datatype Placeholder = Placeholder(id: nat, slot: string)

  /** The page fields the index reads; timestamps are instants on one clock. */
  datatype Page = Page(
    id: nat,
    reverseId: Option<string>,
    publicationDate: Option<int>,
    publicationEndDate: Option<int>,
    loginRequired: bool,
    siteId: nat,
    placeholders: set<Placeholder>)

  /** One translation of a page: the record the index is built from. */
  datatype Title = Title(
    id: nat,
    page: Page,
    language: string,
    title: string,
    metaDescription: Option<string>,
    redirect: Option<string>,
    publisherIsDraft: bool)

  /** A content block (a CMS plugin) stored in a placeholder for one language. */
  datatype Plugin = Plugin(id: nat, placeholder: Placeholder, language: string)

  /** The `PLACEHOLDERS_SEARCH_LIST` setting: a page's reverse id, or the wildcard, to slot names. */
  type SearchList = map<string, seq<string>>

  /** The slot condition put on the page's placeholders: none, or `slot__in=slots`. */
  datatype SlotFilter = AnySlot | SlotIn(slots: seq<string>)

  /** The error raised when the search list has no entry that applies to a page. */
  datatype IndexError = AttributeError(message: string)

  const WildcardKey := "*"
  const MissingEntryMessage := "Leave PLACEHOLDERS_SEARCH_LIST empty or set up at least the generic handling"

  /** Python truthiness of an optional string: present and not empty. */
  predicate Truthy(s: Option<string>)
  {
    s.Some? && s.value != ""
  }

  // ---------------------------------------------------------------------------
  // Record accessors and the indexing filter
  // ---------------------------------------------------------------------------

  /** `get_description`: an empty meta description counts as none. */
  function Description(t: Title): (d: Option<string>)
    ensures d.None? <==> (t.metaDescription.None? || t.metaDescription.value == "")
    ensures d.Some? ==> d == t.metaDescription
  {
    match t.metaDescription
    case None => None
    case Some(text) => if text == "" then None else Some(text)
  }

  /** `should_update`: only the public copy of a record triggers re-indexing, never the draft. */
  function ShouldUpdate(t: Title): (update: bool)
    ensures update <==> !t.publisherIsDraft
  {
    !t.publisherIsDraft
  }

  /** The conditions `get_index_queryset` puts on a public title record. */
  predicate Eligible(t: Title, language: string, now: int)
  {
    && (t.page.publicationDate.None? || t.page.publicationDate.value < now)
    && (t.page.publicationEndDate.None? || t.page.publicationEndDate.value >= now)
    && (t.redirect.None? || t.redirect.value == "")
    && t.language == language
  }

  /**
   * `get_index_queryset`: the public title records that are indexed for
   * `language` at instant `now`. `public` is what the content store's
   * `public()` manager returns.
   */
  function IndexQueryset(public: set<Title>, language: string, now: int): (indexed: set<Title>)
    ensures indexed <= public
    ensures forall t :: t in indexed <==>
      && t in public
      && t.language == language
      && (t.page.publicationDate.None? || t.page.publicationDate.value < now)
      && (t.page.publicationEndDate.None? || now <= t.page.publicationEndDate.value)
      && (t.redirect.None? || t.redirect.value == "")
  {
    set t | t in public && Eligible(t, language, now)
  }

  /** A record is indexed for one language at a time: the sets for two languages never overlap. */
  lemma IndexedInOneLanguage(public: set<Title>, language1: string, language2: string, now: int)
    requires language1 != language2
    ensures IndexQueryset(public, language1, now) !! IndexQueryset(public, language2, now)
  {
  }

  // ---------------------------------------------------------------------------
  // Placeholder slot selection
  // ---------------------------------------------------------------------------

  /** A slot entry that starts with `-` (meant as an exclusion). */
  predicate IsExclusion(entry: string)
  {
    |entry| > 0 && entry[0] == '-'
  }

  /** A slot entry that is searched: one without the leading `-`. */
  predicate IsSearchedSlot(entry: string)
  {
    !IsExclusion(entry)
  }

  /** The slot names of a search-list entry that are searched: every entry not starting with `-`. */
  function Included(entries: seq<string>): (slots: seq<string>)
    ensures forall s :: s in slots ==> !IsExclusion(s)
    ensures forall s :: s in entries && !IsExclusion(s) ==> s in slots
  {
    Filter(entries, IsSearchedSlot)
  }

  /** The searched slots keep the order of the configured entries. */
  lemma IncludedIsSubsequence(entries: seq<string>)
    ensures IsSubsequence(Included(entries), entries)
  {
    FilterIsSubsequence(entries, IsSearchedSlot);
  }

  /** Each searched slot occurs as often as it is configured; no `-` entry survives. */
  lemma IncludedCounts(entries: seq<string>, s: string)
    ensures multiset(Included(entries))[s] == if IsExclusion(s) then 0 else multiset(entries)[s]
  {
    FilterCounts(entries, IsSearchedSlot, s);
  }

  /**
   * A `-` entry only disappears from the list: wherever it stands, it changes
   * nothing about the slots searched, so it never removes a slot that is also
   * listed without the `-`.
   */
  lemma ExclusionEntryIsInert(before: seq<string>, entry: string, after: seq<string>)
    requires IsExclusion(entry)
    ensures Included(before + [entry] + after) == Included(before + after)
  {
    FilterAppend(before + [entry], after, IsSearchedSlot);
    FilterAppend(before, [entry], IsSearchedSlot);
    assert Filter([entry], IsSearchedSlot) == [];
    FilterAppend(before, after, IsSearchedSlot);
  }

  /**
   * The search-list key whose slot list applies to a page: its reverse id
   * when that is non-empty and configured, otherwise the wildcard when
   * configured, otherwise none.
   */
  function FilterTarget(searchList: SearchList, reverseId: Option<string>): (target: Option<string>)
    ensures target.Some? ==> target.value in searchList && target.value != ""
    ensures Truthy(reverseId) && reverseId.value in searchList ==> target == reverseId
    ensures !(Truthy(reverseId) && reverseId.value in searchList) ==>
      target == (if WildcardKey in searchList then Some(WildcardKey) else None)
  {
    var generic := if WildcardKey in searchList then Some(WildcardKey) else None;
    if Truthy(reverseId) && reverseId.value in searchList then reverseId else generic
  }

  /**
   * The slot filter `get_search_data` puts on a page's placeholders, given the
   * setting (`None` when it is not defined) and the page's reverse id.
   */
  function SlotPolicy(configured: Option<SearchList>, reverseId: Option<string>): (r: Result<SlotFilter, IndexError>)
    ensures (configured.None? || configured.value == map[]) ==> r == Success(AnySlot)
    ensures r.Failure? <==>
      && configured.Some? && configured.value != map[]
      && WildcardKey !in configured.value
      && !(Truthy(reverseId) && reverseId.value in configured.value)
    ensures r.Failure? ==> r.error == AttributeError(MissingEntryMessage)
    ensures r.Success? && configured.Some? && configured.value != map[] ==>
      && FilterTarget(configured.value, reverseId).Some?
      && r.value == SlotIn(Included(configured.value[FilterTarget(configured.value, reverseId).value]))
  {
    if configured.None? || configured.value == map[] then Success(AnySlot)
    else
      match FilterTarget(configured.value, reverseId)
      case None => Failure(AttributeError(MissingEntryMessage))
      case Some(key) => Success(SlotIn(Included(configured.value[key])))
  }

  /** A page whose applicable entry lists only `-` slots, or none at all, has no placeholder searched. */
  lemma EmptyEntrySearchesNoPlaceholder(searchList: SearchList, reverseId: Option<string>, key: string, page: Page)
    requires FilterTarget(searchList, reverseId) == Some(key)
    requires key in searchList && forall e :: e in searchList[key] ==> IsExclusion(e)
    ensures SlotPolicy(Some(searchList), reverseId) == Success(SlotIn([]))
    ensures PagePlaceholders(page, SlotIn([])) == {}
  {
    FilterNone(searchList[key], IsSearchedSlot);
  }

  /** With the setting undefined or empty, every placeholder of the page is searched. */
  lemma NoSearchListSearchesEveryPlaceholder(configured: Option<SearchList>, reverseId: Option<string>, page: Page)
    requires configured.None? || configured.value == map[]
    ensures SlotPolicy(configured, reverseId) == Success(AnySlot)
    ensures PagePlaceholders(page, AnySlot) == page.placeholders
  {
  }

  /** When the setting has both a wildcard entry and an entry for the page's non-empty reverse id, the page's own entry is used. */
  lemma OwnEntryOverridesWildcard(searchList: SearchList, reverseId: Option<string>)
    requires WildcardKey in searchList
    requires Truthy(reverseId) && reverseId.value in searchList
    ensures SlotPolicy(Some(searchList), reverseId) == Success(SlotIn(Included(searchList[reverseId.value])))
  {
  }

  // ---------------------------------------------------------------------------
  // Plugin retrieval and the search text
  // ---------------------------------------------------------------------------

  /** The page's placeholders whose slot passes the filter. */
  function PagePlaceholders(page: Page, filter: SlotFilter): (chosen: set<Placeholder>)
    ensures chosen <= page.placeholders
    ensures filter.AnySlot? ==> chosen == page.placeholders
    ensures filter.SlotIn? ==> forall ph :: ph in chosen <==> ph in page.placeholders && ph.slot in filter.slots
  {
    set ph | ph in page.placeholders && (filter.AnySlot? || ph.slot in filter.slots)
  }

  /**
   * The conditions of the plugin query set, which the chained filters conjoin:
   * the block is in `language` and stored in one of the `chosen` placeholders.
   */
  function IsSelected(language: string, chosen: set<Placeholder>): Plugin -> bool
  {
    (p: Plugin) => p.language == language && p.placeholder in chosen
  }

  /**
   * The plugins whose text is indexed: those of `language` stored in a chosen
   * placeholder of the page, in the order the store returns `plugins`.
   */
  function SelectedPlugins(plugins: seq<Plugin>, page: Page, language: string, filter: SlotFilter): (selected: seq<Plugin>)
    ensures forall p :: p in selected <==>
      p in plugins && p.language == language && p.placeholder in PagePlaceholders(page, filter)
  {
    Filter(plugins, IsSelected(language, PagePlaceholders(page, filter)))
  }

  /** Plugin text appears in the order the store returns the plugins. */
  lemma SelectedPluginsKeepOrder(plugins: seq<Plugin>, page: Page, language: string, filter: SlotFilter)
    ensures IsSubsequence(SelectedPlugins(plugins, page, language, filter), plugins)
  {
    FilterIsSubsequence(plugins, IsSelected(language, PagePlaceholders(page, filter)));
  }

  /** With every slot excluded, the page contributes no plugin text. */
  lemma EmptySlotListSelectsNoPlugin(plugins: seq<Plugin>, page: Page, language: string)
    ensures SelectedPlugins(plugins, page, language, SlotIn([])) == []
  {
    FilterNone(plugins, IsSelected(language, PagePlaceholders(page, SlotIn([]))));
  }

  /**
   * The fragments joined into the search text: the text of each selected
   * plugin, then the page's meta description when it is non-empty, then the
   * meta keywords when the page offers them. The length bounds in the first
   * postcondition are a corollary of the exact length in the second.
   */
  function TextBits(
    plugins: seq<Plugin>,
    indexData: Plugin -> seq<string>,
    cleanJoin: seq<string> -> string,
    metaDescription: Option<string>,
    metaKeywords: Option<string>): (bits: seq<string>)
    ensures |plugins| <= |bits| <= |plugins| + 2
    ensures |bits| == |plugins| + (if Truthy(metaDescription) then 1 else 0) + (if metaKeywords.Some? then 1 else 0)
    ensures forall i :: 0 <= i < |plugins| ==> bits[i] == cleanJoin(indexData(plugins[i]))
    ensures Truthy(metaDescription) ==> bits[|plugins|] == metaDescription.value
    ensures metaKeywords.Some? ==> bits[|bits| - 1] == metaKeywords.value
  {
    seq(|plugins|, i requires 0 <= i < |plugins| => cleanJoin(indexData(plugins[i])))
      + (if Truthy(metaDescription) then [metaDescription.value] else [])
      + (if metaKeywords.Some? then [metaKeywords.value] else [])
  }

  /**
   * `get_search_data`: the search text of `title`'s page in `language`, or the
   * configuration error when the search list has no entry for the page.
   *
   * `plugins` are the content blocks of the store in its retrieval order;
   * `indexData` extracts the text pieces of one block (the request is folded
   * into it); `cleanJoin` joins fragments with a space; `metaDescription` is
   * the page's description in `language` without fallback; `metaKeywords` is
   * `Some(k)` exactly when the page offers a keywords accessor returning `k`.
   */
  method GetSearchData(
    title: Title,
    language: string,
    configured: Option<SearchList>,
    plugins: seq<Plugin>,
    indexData: Plugin -> seq<string>,
    cleanJoin: seq<string> -> string,
    metaDescription: Option<string>,
    metaKeywords: Option<string>) returns (r: Result<string, IndexError>)
    ensures r.Failure? <==> SlotPolicy(configured, title.page.reverseId).Failure?
    ensures r.Failure? ==> r.error == AttributeError(MissingEntryMessage)
    ensures r.Success? ==>
      var filter := SlotPolicy(configured, title.page.reverseId).value;
      r.value == cleanJoin(TextBits(SelectedPlugins(plugins, title.page, language, filter),
                                    indexData, cleanJoin, metaDescription, metaKeywords))
  {
    var currentPage := title.page;
    var reverseId := currentPage.reverseId;
    var placeholdersByPage := if configured.Some? then configured.value else map[];
    var filter := AnySlot;

    if placeholdersByPage != map[] {
      var filterTarget: Option<string> := None;
      if WildcardKey in placeholdersByPage {
        filterTarget := Some(WildcardKey);
      }
      if Truthy(reverseId) && reverseId.value in placeholdersByPage {
        filterTarget := reverseId;
      }
      // a target, when set, is the wildcard or a non-empty reverse id: never falsy
      if filterTarget.None? {
        return Failure(AttributeError(MissingEntryMessage));
      }
      filter := SlotIn(Included(placeholdersByPage[filterTarget.value]));
    }

    var selected := SelectedPlugins(plugins, currentPage, language, filter);
    var textBits: seq<string> := [];
    for i := 0 to |selected|
      invariant |textBits| == i
      invariant forall j :: 0 <= j < i ==> textBits[j] == cleanJoin(indexData(selected[j]))
    {
      textBits := textBits + [cleanJoin(indexData(selected[i]))];
    }

    if Truthy(metaDescription) {
      textBits := textBits + [metaDescription.value];
    }
    if metaKeywords.Some? {
      textBits := textBits + [metaKeywords.value];
    }
    assert textBits == TextBits(selected, indexData, cleanJoin, metaDescription, metaKeywords);
    return Success(cleanJoin(textBits));
  }
}
