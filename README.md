# Settings page selection logic and Telegram login callback, in Dafny

This project models the two pieces of real logic in a browser admin panel.

* **The administrator settings page** (`AdminSettings`). It finds the active menu item. It
  groups the fetched settings of that item by category. It runs a global search over all
  settings and builds the favourites list. It formats a setting key (`SMTP_from_NAME` becomes
  `Smtp From Name`) for the translated-name lookup. Finally it decides which view to show.
* **The Telegram Login Widget callback page** (`TelegramCallback`). The widget redirects back
  with seven query parameters. From them the page decides whether to redirect home, show an
  error, or log in with a payload built from them. After a login attempt it decides between
  redirecting and showing the server's message.

Files and modules:

| file | module | what |
|---|---|---|
| `wrappers.dfy` | `Wrappers` | `Option`, for JavaScript's `undefined`/`null` |
| `seqs.dfy` | `Seqs` | `Array.prototype.filter` (`Filter`) and its laws: a subsequence, with exact multiplicities |
| `text.dfy` | `Text` | ASCII `toLowerCase`/`toUpperCase`, ECMAScript white space, `trim`, `includes` |
| `key_format.dfy` | `KeyFormat` | `formatSettingKey`: `replace`, `split(' ')`, per-word capitalisation, `join(' ')` |
| `admin_settings.dfy` | `AdminSettings` | menu lookup, category grouping, search, favourites, `renderContent` |
| `parse_int.dfy` | `JsParseInt` | `parseInt(s, 10)` and the decimal text of an integer |
| `telegram_callback.dfy` | `TelegramCallback` | the callback's decision, the payload, the failure message, the error screen |

Inputs that live outside the modelled files are parameters:

* the menu `MENU_SECTIONS`, as `seq<MenuSection>`;
* the settings returned by the settings query, as `Option<seq<SettingDefinition>>`. `None`
  stands for "not loaded yet or not an array";
* the favourites list and the theme's accent colour;
* the translation function, as `t(key, default)` on the settings page and `t(key)` on the
  callback page;
* the login request, given by its result (`LoginResult`).

Two operations mutate state in the source, and they are methods over local state:

* `currentMenuItem` is `CurrentMenuItem`, a `for` loop with an early return.
* `currentCategories` is `CurrentCategories`. It keeps a JavaScript `Map` as a Dafny `map`
  plus the sequence of its keys in insertion order. Where the source `push`es into a bucket,
  the method rebinds the map to one whose bucket is one setting longer.

Each method is proved equal to a specification function (`MenuLookup`, `Categories`). The
properties are proved about those functions. The other operations are functions.

Navigation and the error state are outcome values (`Outcome`, `ErrorState`, `Render`), not
side effects.

## Model

| member | source | states |
|---|---|---|
| `AdminSettings.FindItem` | src/pages/AdminSettings.tsx:47 | `items.find` by id yields nothing exactly when no item has that id, and otherwise an item of the list with that id |
| `AdminSettings.MenuLookup` | src/pages/AdminSettings.tsx:45-51 | the section-by-section scan yields nothing exactly when no item of any section has the active id, and otherwise an item of the menu with that id |
| `AdminSettings.FindItemIsFirst` | src/pages/AdminSettings.tsx:47 | the item found is the first one with that id |
| `AdminSettings.CurrentMenuItem` | src/pages/AdminSettings.tsx:45-51 | the loop over sections with early return computes `MenuLookup`, the first section whose `find` succeeds, or null |
| `AdminSettings.MenuLookupIsFirstMatch` | src/pages/AdminSettings.tsx:45-51 | scanning section by section equals one scan of all menu items in order, so the result is the first item with the active id, and null when none matches |
| `AdminSettings.Categories` | src/pages/AdminSettings.tsx:54-73 | no groups when the item has no `categories` or the settings are absent; every group is labelled with its translated category name and holds exactly the settings of its category, in input order |
| `AdminSettings.CurrentCategories` | src/pages/AdminSettings.tsx:54-73 | the map-building loop and `Array.from(entries).map` produce exactly `Categories`: one group per allowed key in insertion order, with its label and bucket |
| `AdminSettings.CategoryOrderMembers` | src/pages/AdminSettings.tsx:59-63 | a key gets a group exactly when the menu item allows it and some setting has it |
| `AdminSettings.CategoryOrderDistinct` | src/pages/AdminSettings.tsx:61-62 | no key gets two groups |
| `AdminSettings.CategoryOrderByFirstAppearance` | src/pages/AdminSettings.tsx:59-68 | groups come in order of first appearance: before every setting of a later group's category there is a setting of each earlier group's category |
| `AdminSettings.CategoriesKeys` | src/pages/AdminSettings.tsx:55-72 | no groups when the item has no `categories` or the settings are absent; otherwise group keys are allowed, distinct and in first-appearance order, and each label is the translated category name |
| `AdminSettings.CategoriesMembers` | src/pages/AdminSettings.tsx:59-66 | each group is non-empty and holds, in input order, every setting of its category as often as it occurs, and no other |
| `AdminSettings.CategoriesPermutation` | src/pages/AdminSettings.tsx:57-68 | concatenating the groups gives a permutation of the input settings whose category the item allows |
| `AdminSettings.GroupsForPartition` | src/pages/AdminSettings.tsx:68-72 | for distinct keys, the buckets together hold exactly the settings of those categories, by multiset |
| `KeyFormat.Split` | src/pages/AdminSettings.tsx:79 | `split(' ')` gives one more word than there are spaces |
| `KeyFormat.JoinSplit` | src/pages/AdminSettings.tsx:79-81 | `join(' ')` after `split(' ')` gives back the string |
| `KeyFormat.SplitWordsOmitSeparator` | src/pages/AdminSettings.tsx:79 | no word produced by `split(' ')` contains a space |
| `KeyFormat.JoinCapitalized` | src/pages/AdminSettings.tsx:79-81 | split, capitalise each word (`charAt(0).toUpperCase() + slice(1).toLowerCase()`), join is character-by-character title-casing |
| `KeyFormat.FormatSettingKey` | src/pages/AdminSettings.tsx:76-82 | the `replace`/`split`/capitalise/`join` chain equals character-wise title-casing of the key with underscores turned into spaces, so the length is kept |
| `KeyFormat.FormatSettingKeyAt` | src/pages/AdminSettings.tsx:76-82 | `formatSettingKey` maps `_` and space to space, upper-cases each word's first character and lower-cases the rest |
| `KeyFormat.FormattedKeyIsTitleCased` | src/pages/AdminSettings.tsx:76-82 | the output has no `_`; every word starts with an upper-case-stable character and continues with lower-case-stable ones |
| `KeyFormat.FormatSettingKeyIdempotent` | src/pages/AdminSettings.tsx:76-82 | formatting twice equals formatting once |
| `AdminSettings.NormalizeQuery` | src/pages/AdminSettings.tsx:88-89 | the lower-cased, trimmed query is empty exactly when the trimmed query is |
| `AdminSettings.Matches` | src/pages/AdminSettings.tsx:91-110 | the five-field test accepts every setting for the empty query, which is why the search stops on a blank query first |
| `Text.TrimEmptyIgnoresCase` | src/pages/AdminSettings.tsx:86-89 | `searchQuery.toLowerCase().trim()` is empty exactly when `searchQuery.trim()` is, so the search guard and the view guard agree |
| `AdminSettings.FilteredSettings` | src/pages/AdminSettings.tsx:85-112 | no results when the settings are absent or the query is empty or blank; otherwise a subsequence of all settings holding every matching setting with its multiplicity, and no other |
| `AdminSettings.SearchFinds` | src/pages/AdminSettings.tsx:91-111 | a setting is found iff it is one of the settings and the normalised query occurs in its key, name, translated formatted name, hint description or translated category label |
| `AdminSettings.SearchNarrows` | src/pages/AdminSettings.tsx:88-111 | a longer query, one that contains the shorter, finds a subsequence of what the shorter finds |
| `AdminSettings.FavoriteSettings` | src/pages/AdminSettings.tsx:115-118 | nothing when the settings are absent; otherwise the settings whose key is a favourite, in the settings' order, each as often as it occurs, and no other |
| `AdminSettings.FavoritesIgnoreListOrder` | src/pages/AdminSettings.tsx:117 | only the set of favourite keys matters, not their order in the favourites list |
| `AdminSettings.RenderContent` | src/pages/AdminSettings.tsx:121-162 | every settings view gets the page's query and the search results; categories appear only without a query and only on the seven category sections; branding gets the accent colour and favourites the favourite settings |
| `AdminSettings.SearchOverridesSection` | src/pages/AdminSettings.tsx:123-133 | a non-blank query shows the search results with no categories, whatever the active section |
| `AdminSettings.SectionViews` | src/pages/AdminSettings.tsx:135-159 | with a blank query: branding, theme and favourites get their own views; the seven category sections show their groups and an empty search result |
| `AdminSettings.NothingForUnknownSection` | src/pages/AdminSettings.tsx:121-162 | nothing is rendered exactly when the query is blank and the section is none of the ten known ones |
| `JsParseInt.ParseInt` | src/pages/TelegramCallback.tsx:36-39 | `parseInt` is NaN exactly when no digit follows the leading white space and optional sign |
| `JsParseInt.ParseDecimalString` | src/pages/TelegramCallback.tsx:36-37 | `parseInt` reads back the plain decimal text of any integer, the form in which the widget sends `id` and `auth_date` |
| `JsParseInt.ParseIntSkipsWhiteSpace` | src/pages/TelegramCallback.tsx:36-37 | leading white space does not change `parseInt`'s result |
| `JsParseInt.ParseIntIgnoresTrailer` | src/pages/TelegramCallback.tsx:36-37 | whatever follows the leading digits is ignored |
| `TelegramCallback.Get` | src/pages/TelegramCallback.tsx:21-27 | `searchParams.get` is null exactly when no pair has the name, and otherwise the value of the first pair with that name |
| `TelegramCallback.Authenticate` | src/pages/TelegramCallback.tsx:13-53 | the decision redirects exactly when already authenticated, and then to `/`; the only error it raises is `auth.telegramRequired` |
| `TelegramCallback.AuthenticatedRedirects` | src/pages/TelegramCallback.tsx:14-17 | when already authenticated the outcome is a redirect to `/`, whatever the query |
| `TelegramCallback.RequiredParameters` | src/pages/TelegramCallback.tsx:30-33 | a missing or empty `id`, `first_name`, `auth_date` or `hash` gives the `auth.telegramRequired` error and no login |
| `TelegramCallback.NumericParameters` | src/pages/TelegramCallback.tsx:36-42 | an `id` or `auth_date` that `parseInt` reads as NaN gives the `auth.telegramRequired` error |
| `TelegramCallback.LoginPayload` | src/pages/TelegramCallback.tsx:45-53 | a login happens iff not authenticated, the required fields are present and both numbers parse; the payload has the parsed numbers, `first_name` and `hash` unchanged, and each missing or empty optional field undefined |
| `TelegramCallback.WidgetRoundTrip` | src/pages/TelegramCallback.tsx:21-53 | the query string the widget sends for any well-formed login data leads to a login with exactly that data |
| `TelegramCallback.AfterLogin` | src/pages/TelegramCallback.tsx:54-58 | after the login request the page redirects to `/` exactly when the login succeeded, and never logs in again |
| `TelegramCallback.LoginFailureMessage` | src/pages/TelegramCallback.tsx:55-57 | the failure message is the server's `detail` when it is a non-empty string, and `t('common.error')` otherwise; `PageScreen` carries it to the screen |
| `TelegramCallback.Callback` | src/pages/TelegramCallback.tsx:13-61 | the whole effect never stays in the login state, redirects only to `/`, and off the login path ends exactly where the decision does |
| `TelegramCallback.CallbackAfterLogin` | src/pages/TelegramCallback.tsx:44-58 | after a login request, success redirects to `/` and failure shows the failure message |
| `TelegramCallback.Render` | src/pages/TelegramCallback.tsx:64-94 | the error screen is shown iff the error string is non-empty, and it shows that string; `PageScreen` ties the string to the effect |
| `TelegramCallback.PageScreen` | src/pages/TelegramCallback.tsx:13-94 | what the user sees after the effect: the spinner when already logged in or after a successful login; for a missing, empty or non-numeric required parameter the `auth.telegramRequired` text; after a failed login the server's `detail`, else the `common.error` text; an empty translated text leaves the spinner |

## Left out

* JSX, CSS classes and layout are not modelled: the sidebar and menu rendering, the mobile
  overlay and its open/close toggles, the header, and the search-count message
  (src/pages/AdminSettings.tsx:164-317). They are presentation.
* `src/components/admin/SettingsSidebar.tsx` and `src/components/admin/SettingsSearch.tsx` are
  not part of this model. They repeat the page's markup, and their only logic is a badge shown
  for a positive count and a message chosen by count.
* `useQuery`, `adminSettingsApi`, `themeColorsApi` and `loginWithTelegramWidget` are network
  calls. Their data are inputs, and the login's result is the `LoginResult` parameter.
* `useMemo` caching, `useEffect` re-runs and `async`/`await` are not modelled. Each computed
  value is a function of its inputs, and the effect is one evaluation.
* The translation layer `t` is an arbitrary function: no translation tables.
* `useFavoriteSettings` (`toggleFavorite`, `isFavorite`) is not shown. Only its `favorites`
  list is modelled, as an input.
* `toLowerCase` and `toUpperCase` are ASCII-only. Cyrillic and other non-ASCII letters keep
  their case in the model, so the model's search is case-sensitive for them and the source's
  is not. Unicode mappings that change length, such as `ß` to `SS`, are out too. `trim` and
  `parseInt` use the full ECMAScript white-space and line-terminator set.
* `JsParseInt.DecimalString` is the plain decimal text. JavaScript's `String(n)` agrees with it
  only below 10^21 in magnitude and uses exponent form from there on; that form is not modelled.
* `JsParseInt.ParseInt` returns exact integers. It does not model rounding of values above
  2^53 to the nearest double, and it reads `-0` as `0`.
* Query parameters are modelled as already-decoded name/value pairs. Percent-decoding by
  `URLSearchParams` is not modelled.
* `LoginResult.Failed` carries the server's `detail` only when it is a string or absent. A
  non-string `detail` (an array, say) that the `||` would pass through is not modelled.
* `CurrentCategories` models the `Map` of arrays as an immutable `map` value that is rebound
  on every `push`. Aliasing between the bucket arrays and the returned groups is not modelled.
* The behaviour of a setting whose `category` is missing is not modelled. The source would
  throw there, and the model's `SettingDefinition` always has a category.
