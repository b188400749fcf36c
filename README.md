# TitleIndex search-index model

A Dafny model of the search index that aldryn-search declares for django CMS
pages (`TitleIndex` in `aldryn_search/search_indexes.py`). The index turns one
title record (one language version of a page) into one search document. The
model covers the parts of that class that hold decisions:

- which title records are indexed (`get_index_queryset`), and when a changed
  record triggers re-indexing (`should_update`);
- the description field (`get_description`), where an empty text counts as none;
- the placeholder slot policy of the `PLACEHOLDERS_SEARCH_LIST` setting. A
  page's own reverse id entry wins over the `'*'` wildcard entry. Entries
  starting with `-` are dropped from the slot list. A non-empty setting with
  neither a `'*'` entry nor an entry for the page's non-empty reverse id is a
  configuration error (`AttributeError`). An
  undefined or empty setting searches every placeholder;
- the search text (`get_search_data`). It collects one fragment per selected
  plugin in retrieval order, then the page's meta description when it is
  non-empty, then the meta keywords when the page offers them, and joins the
  fragments.

Files:

- `wrappers.dfy`: `Option` and `Result`.
- `filtering.dfy`: an order-preserving filter over sequences with its
  properties (subsequence, counts, concatenation). It stands for the list
  comprehension of the slot list and for the query-set filters evaluated
  on records held in memory.
- `title_index.dfy`: the records, the index filter, the slot policy, the
  plugin selection, the fragment list, and `GetSearchData`. `GetSearchData`
  is written step by step like the source: the filter target is reassigned,
  then a loop appends the plugin texts. It is proved equal to the
  specification functions `SlotPolicy`, `SelectedPlugins` and `TextBits`.

The collaborators whose code is not part of this model are parameters:

- the store's records are values: a set of public titles and a sequence of
  plugins;
- `get_plugin_index_data` is `indexData`, with the request folded into it;
- `clean_join(' ', ...)` is `cleanJoin`;
- `get_meta_description(fallback=False, language=...)` and the
  `get_meta_keywords` probe are `Option<string>` inputs;
- `timezone.now()` is `now`.

Blocks whose extracted text is empty are sometimes described as contributing
nothing, with only non-empty fragments joined. The code appends every plugin's
text unconditionally (lines 92-94); any dropping of empty fragments would
happen inside `clean_join`, which is not part of this model. The model
follows the code.

## Model

| member | source | states |
|---|---|---|
| `TitleIndex.Description` | aldryn_search/search_indexes.py:38-39 | the description is absent exactly when the meta description is absent or empty; otherwise it is the meta description unchanged |
| `TitleIndex.ShouldUpdate` | aldryn_search/search_indexes.py:124-125 | a record triggers re-indexing exactly when it is not the draft copy |
| `TitleIndex.IndexQueryset` | aldryn_search/search_indexes.py:115-122 | a public record is indexed exactly when its language is the requested one, its page's publication date is null or strictly before now, its publication end date is null or not before now, and its redirect is null or empty; nothing outside the public set is indexed |
| `TitleIndex.IndexedInOneLanguage` | aldryn_search/search_indexes.py:116-120 | the records indexed for two different languages are disjoint |
| `TitleIndex.Included` | aldryn_search/search_indexes.py:86 | no selected slot starts with `-`, and every configured entry without `-` is selected |
| `TitleIndex.IncludedIsSubsequence` | aldryn_search/search_indexes.py:86 | the selected slots are an order-preserving subsequence of the configured list |
| `TitleIndex.IncludedCounts` | aldryn_search/search_indexes.py:86 | each entry without `-` is selected exactly as often as it is configured; `-` entries never are |
| `TitleIndex.ExclusionEntryIsInert` | aldryn_search/search_indexes.py:86-87 | a `-` entry, wherever it stands, leaves the selected slots unchanged: it builds no exclusion and never removes a slot listed without `-` |
| `TitleIndex.FilterTarget` | aldryn_search/search_indexes.py:79-83 | a non-empty reverse id that is a key of the setting is chosen over `'*'`; otherwise `'*'` when it is a key; otherwise no key; a chosen key is always in the setting and never empty |
| `TitleIndex.SlotPolicy` | aldryn_search/search_indexes.py:72-87 | an undefined or empty setting gives no slot filter; a non-empty setting fails with the configuration error exactly when it has neither `'*'` nor the page's non-empty reverse id; otherwise the filter is the chosen key's list without its `-` entries |
| `TitleIndex.NoSearchListSearchesEveryPlaceholder` | aldryn_search/search_indexes.py:72-88 | with the setting undefined or empty, no slot filter applies and every placeholder of the page is searched |
| `TitleIndex.EmptyEntrySearchesNoPlaceholder` | aldryn_search/search_indexes.py:53-55 | a page whose applicable entry is an empty list (or lists only `-` slots) gets an empty slot filter, so none of its placeholders is searched |
| `TitleIndex.OwnEntryOverridesWildcard` | aldryn_search/search_indexes.py:79-86 | for every setting with entries for both `'*'` and the page's non-empty reverse id, the slot filter is the page's own list without its `-` entries |
| `TitleIndex.PagePlaceholders` | aldryn_search/search_indexes.py:88 | the searched placeholders are the page's placeholders whose slot is in the filter's list, or all of them when there is no filter |
| `TitleIndex.SelectedPlugins` | aldryn_search/search_indexes.py:41-89 | a plugin is selected exactly when it is in the requested language and stored in a searched placeholder of the page |
| `TitleIndex.SelectedPluginsKeepOrder` | aldryn_search/search_indexes.py:89-94 | the selected plugins keep the store's retrieval order |
| `TitleIndex.EmptySlotListSelectsNoPlugin` | aldryn_search/search_indexes.py:86-89 | an empty slot filter selects no plugin, so the page contributes no plugin text |
| `TitleIndex.TextBits` | aldryn_search/search_indexes.py:90-104 | the first n fragments are the n plugin texts in order; the meta description follows only when non-empty; the keywords come last and only when offered; so the length lies between n and n+2 |
| `TitleIndex.GetSearchData` | aldryn_search/search_indexes.py:45-110 | fails with the configuration error exactly when the slot policy does; otherwise returns the join of the fragment list built from the selected plugins, the description and the keywords |

## Left out

- `prepare_pub_date`, `prepare_login_required`, `prepare_site_id`, `get_language` and `get_title` read one field of the record. They are the fields of `Page` and `Title`, not separate members.
- `get_url` calls the page's `get_absolute_url`, which is not part of this model.
- `get_model`, `index_title`, `haystack_use_for_indexing` and the index base class are search-library plumbing with no logic of their own.
- The query layer is not modelled. `Title.objects.public()` is a set given as input; what "public" means there is not part of this model. `select_related` has no effect on the result. `distinct` is modelled by returning a set.
- The plugin query set's ordering is not visible in the code. The model takes the store's retrieval order to be the order of the `plugins` sequence.
- `timezone.now()` is evaluated twice in the source, once per date condition. The model uses one instant `now` for both. Datetimes are integers on one clock.
- `get_plugin_index_data`, `clean_join` and `strip_tags` are uninterpreted. No join, whitespace or markup semantics are assumed.
- `get_meta_description(fallback=False, ...)` is taken as an input. Its locale fallback logic is not modelled.
- The keywords accessor is taken to return a string. A `None` returned by the accessor would still be appended in the source; the model does not represent that value.
- `SlotPolicy` treats the setting as a map from strings to lists of strings, or as undefined. Other Python values a settings object could hold (a non-dict, non-string list elements) are not modelled.
- Exclusion of `-` slots is not modelled beyond dropping those entries, because the source builds no exclusion filter.
